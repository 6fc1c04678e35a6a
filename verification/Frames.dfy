/** Frames on a byte stream (frame.go): written whole, read back, cut anywhere. */
module Frames {
  import opened Words
  import opened Encoding

  const REQUEST: Byte := 1
  const ANSWER: Byte := 2
  const REFUSAL: Byte := 3
  const SUBSCRIBE: Byte := 4
  const ELSEWHERE: Byte := 13
  const VAULT: Byte := 17

  const VAULT_MINOR := 2
  const DECLARE_MINOR := 6
  const CONDITION_MINOR := 4

  const HEADER_BYTES := 5
  const CEILING := 16 * 1024 * 1024

  datatype Frame = Frame(kind: Byte, body: Str)

  /** What one call of readFrame reports. */
  datatype Arrival =
    | Whole(frame: Frame)
    | CleanEnd
    | Truncated
    | TooLarge(kind: Byte)
    | UnknownKind(kind: Byte)

  function FrameBytes(f: Frame): Str {
    [f.kind] + U32(|f.body|) + f.body
  }

  function FramesBytes(fs: seq<Frame>): Str {
    if fs == [] then [] else FrameBytes(fs[0]) + FramesBytes(fs[1..])
  }

  function AnnouncedLength(bs: Str): nat
    requires |bs| >= HEADER_BYTES
  {
    FromBigEndian(bs[1..5])
  }

  /** One frame off the front of what the peer will ever send, and what then remains. */
  function ReadFrame(bs: Str, known: set<Byte>): (Arrival, Str) {
    if |bs| < HEADER_BYTES then (if bs == [] then CleanEnd else Truncated, [])
    else
      var kind, length := bs[0], AnnouncedLength(bs);
      if length > CEILING then (TooLarge(kind), bs[HEADER_BYTES..])
      else if |bs| - HEADER_BYTES < length then (Truncated, [])
      else
        var body, rest := bs[HEADER_BYTES..HEADER_BYTES + length], bs[HEADER_BYTES + length..];
        (if kind in known then Whole(Frame(kind, body)) else UnknownKind(kind), rest)
  }

  /** Frames until something else arrives: the frames, and that something. */
  function ReadAll(bs: Str, known: set<Byte>): (seq<Frame>, Arrival)
    decreases |bs|
  {
    var (arrival, rest) := ReadFrame(bs, known);
    if !arrival.Whole? then ([], arrival)
    else
      var (more, end) := ReadAll(rest, known);
      ([arrival.frame] + more, end)
  }

  // ---------- the laws ----------

  ghost predicate Sendable(f: Frame, known: set<Byte>) {
    f.kind in known && |f.body| <= CEILING
  }

  /** How many of the frames lie whole within the first k bytes. */
  function WholeWithin(fs: seq<Frame>, k: nat): (n: nat)
    ensures n <= |fs|
  {
    if fs == [] || k < |FrameBytes(fs[0])| then 0 else 1 + WholeWithin(fs[1..], k - |FrameBytes(fs[0])|)
  }

  lemma OneFrameReads(f: Frame, s: Str, known: set<Byte>)
    requires Sendable(f, known)
    ensures ReadFrame(FrameBytes(f) + s, known) == (Whole(f), s)
  {
    var bs := FrameBytes(f) + s;
    HeaderReads(f, bs);
    assert bs[HEADER_BYTES..HEADER_BYTES + |f.body|] == f.body && bs[HEADER_BYTES + |f.body|..] == s;
  }

  lemma HeaderReads(f: Frame, bs: Str)
    requires |f.body| <= CEILING && |bs| >= HEADER_BYTES
    requires bs[..HEADER_BYTES] == [f.kind] + U32(|f.body|)
    ensures AnnouncedLength(bs) == |f.body|
  {
    hide BigEndian, FromBigEndian, Pow256;
    Powers();
    BigEndianReads(|f.body|, 4);
    assert bs[1..5] == bs[..HEADER_BYTES][1..];
  }

  /**
   A peer that stops after any k bytes of a run of frames: exactly the frames before the cut are
   read, and then a clean end if the cut is between two frames and a truncation if it is inside one.
   */
  lemma {:induction false} CutStream(fs: seq<Frame>, k: nat, known: set<Byte>)
    requires forall i :: 0 <= i < |fs| ==> Sendable(fs[i], known)
    requires k <= |FramesBytes(fs)|
    ensures ReadAll(FramesBytes(fs)[..k], known).0 == fs[..WholeWithin(fs, k)]
    ensures ReadAll(FramesBytes(fs)[..k], known).1
         == if k == |FramesBytes(fs[..WholeWithin(fs, k)])| then CleanEnd else Truncated
    decreases fs
  {
    hide ReadFrame, FrameBytes;
    if fs != [] {
      var f, tail := fs[0], fs[1..];
      var one := FrameBytes(f);
      if k < |one| {
        assert FramesBytes(fs)[..k] == one[..k];
        CutFrame(f, k, known);
        assert fs[..0] == [];
      } else {
        var n, rest := WholeWithin(tail, k - |one|), FramesBytes(tail)[..k - |one|];
        assert FramesBytes(fs)[..k] == one + rest;
        OneFrameReads(f, rest, known);
        CutStream(tail, k - |one|, known);
        assert fs[..n + 1] == [f] + tail[..n];
        assert fs[..n + 1][1..] == tail[..n];
      }
    } else {
      assert FramesBytes(fs)[..k] == [] && ReadFrame([], known).0 == CleanEnd by { NothingComes(known); }
    }
  }

  lemma NothingComes(known: set<Byte>)
    ensures ReadFrame([], known) == (CleanEnd, [])
  {}

  lemma CutFrame(f: Frame, k: nat, known: set<Byte>)
    requires Sendable(f, known) && k < |FrameBytes(f)|
    ensures ReadFrame(FrameBytes(f)[..k], known) == (if k == 0 then CleanEnd else Truncated, [])
  {
    var cut := FrameBytes(f)[..k];
    if k >= HEADER_BYTES {
      assert cut[..HEADER_BYTES] == [f.kind] + U32(|f.body|);
      HeaderReads(f, cut);
    }
  }

  // ---------- the greeting ----------

  const MAGIC: Str := [0x54, 0x45, 0x53, 0x53]
  const MAJOR: Byte := 1

  datatype Greeting = NoGreeting | NotThisProtocol | WrongVersion(major: Byte) | Peer(minor: Byte)

  /** The magic is judged before the version, and the peer's minor never refused. */
  function ReadGreeting(bs: Str): Greeting {
    if |bs| < 6 then NoGreeting
    else if bs[..4] != MAGIC then NotThisProtocol
    else if bs[4] != MAJOR then WrongVersion(bs[4])
    else Peer(bs[5])
  }

  /** A peer is understood exactly when it sends the magic and this major, whatever its minor. */
  lemma GreetingReads(bs: Str)
    ensures ReadGreeting(bs).Peer? <==> MAGIC + [MAJOR] <= bs && |bs| >= 6
    ensures forall minor: Byte, rest: Str :: ReadGreeting(MAGIC + [MAJOR, minor] + rest) == Peer(minor)
  {
    if |bs| >= 6 && bs[..4] == MAGIC && bs[4] == MAJOR {
      assert bs[..5] == MAGIC + [MAJOR];
    }
    if MAGIC + [MAJOR] <= bs {
      assert bs[..4] == (MAGIC + [MAJOR])[..4] == MAGIC;
    }
    forall minor: Byte, rest: Str ensures ReadGreeting(MAGIC + [MAJOR, minor] + rest) == Peer(minor) {
      assert (MAGIC + [MAJOR, minor] + rest)[..4] == MAGIC;
    }
  }

  // ---------- frame.go ----------

  /** The four bytes of a length, shifted out by hand. */
  lemma FourBytes(n: UInt32)
    ensures [n / 0x100_0000, n / 0x1_0000 % 0x100, n / 0x100 % 0x100, n % 0x100] == BigEndian(n, 4)
  {
    assert n / 0x100 / 0x100 == n / 0x1_0000 && n / 0x1_0000 / 0x100 == n / 0x100_0000;
    assert BigEndian(n / 0x100_0000, 1) == [] + [n / 0x100_0000 % 0x100];
    assert BigEndian(n / 0x1_0000, 2) == BigEndian(n / 0x100_0000, 1) + [n / 0x1_0000 % 0x100];
    assert BigEndian(n / 0x100, 3) == BigEndian(n / 0x1_0000, 2) + [n / 0x100 % 0x100];
  }

  /** The bytes to write, or nothing for a body over the ceiling. */
  method WriteFrame(kind: Byte, body: Str) returns (out: Option<Str>)
    ensures out == if |body| > CEILING then Nothing else Some(FrameBytes(Frame(kind, body)))
  {
    if |body| > CEILING { return Nothing; }
    hide U32;
    var header: Str := [kind];
    var length := BigEndianBytes(|body|);
    header := header + length;
    header := header + body;
    out := Some(header);
  }

  /** A length as four bytes, each shifted out. */
  method BigEndianBytes(n: UInt32) returns (length: Str)
    ensures length == U32(n)
  {
    hide BigEndian;
    length := [n / 0x100_0000, n / 0x1_0000 % 0x100, n / 0x100 % 0x100, n % 0x100];
    FourBytes(n);
  }

  /** A socket's incoming side: everything the peer will send before it closes. */
  class Stream {
    const bytes: Str
    var at: nat

    constructor (bytes: Str)
      ensures this.bytes == bytes && at == 0
    {
      this.bytes := bytes;
      at := 0;
    }

    ghost predicate Valid()
      reads this
    {
      at <= |bytes|
    }

    ghost function Coming(): Str
      requires Valid()
      reads this
    {
      bytes[at..]
    }

    /** io.ReadFull: n bytes, or whatever there was. */
    method ReadFull(n: nat) returns (got: Str)
      requires Valid()
      modifies this`at
      ensures Valid()
      ensures got == if |old(Coming())| < n then old(Coming()) else old(Coming())[..n]
      ensures Coming() == old(Coming())[|got|..]
    {
      var upTo := if at + n <= |bytes| then at + n else |bytes|;
      got := bytes[at..upTo];
      assert got == Coming()[..upTo - at];
      at := upTo;
    }

    /** The six bytes a peer begins with. */
    method TakeGreeting() returns (greeting: Greeting)
      requires Valid()
      modifies this`at
      ensures Valid() && greeting == ReadGreeting(old(Coming()))
      ensures greeting.Peer? <==> MAGIC + [MAJOR] <= old(Coming()) && |old(Coming())| >= 6
      ensures |old(Coming())| >= 6 ==> Coming() == old(Coming())[6..]
    {
      ghost var bs := Coming();
      GreetingReads(bs);
      var head := ReadFull(6);
      if |head| < 6 { return NoGreeting; }
      assert head[..4] == bs[..4];
      if head[..4] != MAGIC { return NotThisProtocol; }
      if head[4] != MAJOR { return WrongVersion(head[4]); }
      greeting := Peer(head[5]);
    }

    method NextFrame(known: set<Byte>) returns (arrival: Arrival)
      requires Valid()
      modifies this`at
      ensures Valid() && (arrival, Coming()) == ReadFrame(old(Coming()), known)
    {
      ghost var bs := Coming();
      var header := ReadFull(HEADER_BYTES);
      if |header| < HEADER_BYTES {
        return if |header| == 0 then CleanEnd else Truncated;
      }
      var kind := header[0];
      var length := FromBigEndian(header[1..5]);
      assert header[1..5] == bs[1..5];
      if length > CEILING { return TooLarge(kind); }
      var body := ReadFull(length);
      if |body| < length { return Truncated; }
      assert body == bs[HEADER_BYTES..HEADER_BYTES + length];
      if kind !in known { return UnknownKind(kind); }
      arrival := Whole(Frame(kind, body));
    }
  }
}
