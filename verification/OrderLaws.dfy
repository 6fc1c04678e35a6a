/** The byte order of the key encodings is the order of what they encode. */
module OrderLaws {
  import opened Words
  import opened Values
  import opened Encoding
  import opened Decoding
  import opened CodecLaws

  /**
   Inverting the top bit shifts the whole range by 2^63, so a signed integer is written as an offset from the least.
   */
  lemma I64IsOffset(n: Int64)
    ensures I64(n) == BigEndian(n + TWO_63, 8)
  {
    hide BigEndian, FromBigEndian, Pow256;
    Powers();
    var plain := BigEndian(Unsigned64(n), 8);
    BigEndianReads(Unsigned64(n), 8);
    FromBigEndianHead(plain[0], plain[1..]);
    FromBigEndianHead(FlipTop(plain[0]), plain[1..]);
    BigEndianWrites(plain[1..]);
    assert plain == [plain[0]] + plain[1..];
    assert FromBigEndian(I64(n)) == n + TWO_63;
    BigEndianWrites(I64(n));
  }

  lemma I64Order(m: Int64, n: Int64)
    ensures Less(I64(m), I64(n)) <==> m < n
  {
    hide BigEndian, I64, Less, Pow256;
    Powers();
    I64IsOffset(m);
    I64IsOffset(n);
    BigEndianOrder(m + TWO_63, n + TWO_63, 8);
  }

  predicate Earlier(s: Int64, n: UInt32, s': Int64, n': UInt32) {
    s < s' || (s == s' && n < n')
  }

  /** Encoded moments sort chronologically, the ones before the epoch included. */
  lemma MomentOrder(s: Int64, n: UInt32, s': Int64, n': UInt32)
    ensures Less(Moment(s, n), Moment(s', n')) <==> Earlier(s, n, s', n')
  {
    hide BigEndian, I64, Less, Pow256, ReadI64;
    Powers();
    I64Order(s, s');
    I64Order(s', s);
    LessIsTotal(I64(s), I64(s'));
    BigEndianOrder(n, n', 4);
    LessOnHeads(I64(s), I64(s'), U32(n), U32(n'));
  }

  /** The escape keeps the order of the raw strings, zero bytes included, whatever follows the terminators. */
  lemma {:induction false} VarbytesOrder(a: Str, b: Str, s: Str, t: Str)
    ensures Less(Varbytes(a) + s, Varbytes(b) + t) <==> Less(a, b) || (a == b && Less(s, t))
  {
    if a == [] || b == [] {
      assert Varbytes([]) == [0x00, 0x01];
      VarbytesHead(a, s);
      VarbytesHead(b, t);
      if a == b { LessAfterPrefix([0x00, 0x01], s, t); }
    } else {
      VarbytesHead(a, s);
      VarbytesHead(b, t);
      if a[0] == b[0] {
        VarbytesOrder(a[1..], b[1..], s, t);
        LessAfterPrefix(Mark(a[0]), Varbytes(a[1..]) + s, Varbytes(b[1..]) + t);
        assert a == [a[0]] + a[1..] && b == [b[0]] + b[1..];
      }
    }
  }

  function Mark(c: Byte): Str {
    if c == 0 then [0x00, 0xff] else [c]
  }

  lemma VarbytesHead(a: Str, s: Str)
    ensures Varbytes(a) + s == if a == [] then [0x00, 0x01] + s else Mark(a[0]) + (Varbytes(a[1..]) + s)
  {}

  // ---------- record ids ----------

  function KindOf(id: RecordId): nat
    requires !id.NoId?
  {
    match id case IntegerId(_) => 1 case TextId(_) => 2 case UuidId(_) => 3 case BytesId(_) => 4
  }

  /** Ids by kind, and within a kind by value. */
  predicate IdBefore(x: RecordId, y: RecordId)
    requires !x.NoId? && !y.NoId?
  {
    KindOf(x) < KindOf(y)
    || match (x, y)
       case (IntegerId(m), IntegerId(n)) => m < n
       case (TextId(a), TextId(b)) => Less(a, b)
       case (UuidId(a), UuidId(b)) => Less(a, b)
       case (BytesId(a), BytesId(b)) => Less(a, b)
       case _ => false
  }

  lemma IdOrder(x: RecordId, y: RecordId)
    requires !x.NoId? && !y.NoId?
    ensures Less(IdBytes(x), IdBytes(y)) <==> IdBefore(x, y)
  {
    hide I64, Varbytes;
    if KindOf(x) == KindOf(y) {
      LessAfterPrefix(IdBytes(x)[..1], IdBytes(x)[1..], IdBytes(y)[1..]);
      assert IdBytes(x) == IdBytes(x)[..1] + IdBytes(x)[1..] && IdBytes(y) == IdBytes(x)[..1] + IdBytes(y)[1..];
      if x.IntegerId? {
        I64Order(x.number, y.number);
      } else if !x.UuidId? {
        var a, b := if x.TextId? then x.text else x.bytes, if y.TextId? then y.text else y.bytes;
        VarbytesOrder(a, b, [], []);
        assert Varbytes(a) + [] == Varbytes(a) && Varbytes(b) + [] == Varbytes(b);
      }
    }
  }

  lemma {:induction false} EscapedJoins(a: Str, b: Str)
    ensures Escaped(a + b) == Escaped(a) + Escaped(b)
  {
    if a == [] {
      assert a + b == b;
    } else {
      EscapedJoins(a[1..], b);
      assert (a + b)[1..] == a[1..] + b;
      Assoc(if a[0] == 0 then [0x00, 0xff] else [a[0]], Escaped(a[1..]), Escaped(b));
    }
  }

  /** Of one longer string only the terminator is not already in the longer one's bytes. */
  lemma EscapeIsLocal(a: Str, b: Str)
    ensures Varbytes(a + b) == Escaped(a) + Varbytes(b)
  {
    hide Escaped;
    EscapedJoins(a, b);
    Assoc(Escaped(a), Escaped(b), [0x00, 0x01]);
  }

  /** With the terminator an encoding is a prefix of another's exactly when the strings are the same. */
  lemma PrefixOnlyOfItself(a: Str, b: Str)
    ensures Varbytes(a) <= Varbytes(a + b) <==> b == []
  {
    hide Varbytes, ReadVarbytes;
    if Varbytes(a) <= Varbytes(a + b) {
      var s := Varbytes(a + b)[|Varbytes(a)|..];
      assert Varbytes(a + b) == Varbytes(a) + s && Varbytes(a + b) == Varbytes(a + b) + [];
      VarbytesReads(a, s);
      VarbytesReads(a + b, []);
      assert |a| == |a + b|;
    } else {
      assert b == [] ==> a + b == a;
    }
  }

  /** So "a" is not a prefix of "ab" once encoded. */
  lemma PrefixIsLost()
    ensures [0x61] <= [0x61, 0x62] && !(Varbytes([0x61]) <= Varbytes([0x61, 0x62]))
  {
    PrefixOnlyOfItself([0x61], [0x62]);
    assert [0x61] + [0x62] == [0x61, 0x62];
  }
}
