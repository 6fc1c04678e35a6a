/** UTF-8 as RFC 3629 defines it: the texts that are accepted are the encodings of scalar values, one after another. */
module Utf8Laws {
  import opened Words
  import opened Utf8

  /** Any code point but a surrogate. */
  predicate Scalar(c: nat) {
    c <= 0xd7ff || 0xe000 <= c <= 0x10ffff
  }

  /** RFC 3629, section 3: six bits a byte, and as many ones in front as there are bytes. */
  function Encoded(c: nat): (s: Str)
    requires Scalar(c)
    ensures s != []
  {
    if c < 0x80 then [c]
    else if c < 0x800 then [0xc0 + c / 0x40, 0x80 + c % 0x40]
    else if c < 0x1_0000 then [0xe0 + c / 0x1000, 0x80 + c / 0x40 % 0x40, 0x80 + c % 0x40]
    else [0xf0 + c / 0x4_0000, 0x80 + c / 0x1000 % 0x40, 0x80 + c / 0x40 % 0x40, 0x80 + c % 0x40]
  }

  function Joined(cs: seq<nat>): Str
    requires forall c :: c in cs ==> Scalar(c)
  {
    if cs == [] then [] else Encoded(cs[0]) + Joined(cs[1..])
  }

  /** The scalar value of a well-formed sequence: what the bits after the leading ones make. */
  function Decoded(s: Str): (c: nat)
    requires RuneWidth(s) > 0
  {
    var w := RuneWidth(s);
    if w == 1 then s[0] else Bits(s, w, s[0] - (if w == 2 then 0xc0 else if w == 3 then 0xe0 else 0xf0))
  }

  function Bits(s: Str, w: nat, lead: nat): nat
    requires 2 <= w <= |s| && forall i :: 1 <= i < w ==> s[i] >= 0x80
  {
    var two := lead * 0x40 + (s[1] - 0x80) as nat;
    if w == 2 then two
    else
      var three := two * 0x40 + (s[2] - 0x80) as nat;
      if w == 3 then three else if w == 4 then three * 0x40 + (s[3] - 0x80) as nat else 0
  }

  lemma ThreeBytes(a: nat, b: nat, c: nat)
    requires b < 0x40 && c < 0x40
    ensures var n := a * 0x1000 + b * 0x40 + c; n / 0x1000 == a && n / 0x40 % 0x40 == b && n % 0x40 == c
  {
    var n := a * 0x1000 + b * 0x40 + c;
    assert n / 0x40 == a * 0x40 + b;
  }

  lemma FourBytes(a: nat, b: nat, c: nat, d: nat)
    requires b < 0x40 && c < 0x40 && d < 0x40
    ensures var n := a * 0x4_0000 + b * 0x1000 + c * 0x40 + d;
            n / 0x4_0000 == a && n / 0x1000 % 0x40 == b && n / 0x40 % 0x40 == c && n % 0x40 == d
  {
    var n := a * 0x4_0000 + b * 0x1000 + c * 0x40 + d;
    assert n / 0x40 == a * 0x1000 + b * 0x40 + c && n / 0x1000 == a * 0x40 + b;
  }

  /** What is taken for one rune is the encoding of one scalar value. */
  lemma RuneIsEncoded(s: Str)
    requires RuneWidth(s) > 0
    ensures Scalar(Decoded(s)) && Encoded(Decoded(s)) == s[..RuneWidth(s)]
  {
    var w := RuneWidth(s);
    if w == 1 {
    } else if w == 2 {
      TwoByteRune(s);
    } else if w == 3 {
      ThreeByteRune(s);
    } else {
      FourByteRune(s);
    }
  }

  lemma TwoByteRune(s: Str)
    requires RuneWidth(s) == 2
    ensures Scalar(Decoded(s)) && Encoded(Decoded(s)) == s[..2]
  {}

  lemma ThreeByteRune(s: Str)
    requires RuneWidth(s) == 3
    ensures Scalar(Decoded(s)) && Encoded(Decoded(s)) == s[..3]
  {
    var a, b, c: nat := s[0] - 0xe0, s[1] - 0x80, s[2] - 0x80;
    ThreeBytes(a, b, c);
    assert Decoded(s) == a * 0x1000 + b * 0x40 + c;
  }

  lemma FourByteRune(s: Str)
    requires RuneWidth(s) == 4
    ensures Scalar(Decoded(s)) && Encoded(Decoded(s)) == s[..4]
  {
    var a, b, c, d: nat := s[0] - 0xf0, s[1] - 0x80, s[2] - 0x80, s[3] - 0x80;
    FourBytes(a, b, c, d);
    assert Decoded(s) == a * 0x4_0000 + b * 0x1000 + c * 0x40 + d;
  }

  /** The encoding of any scalar value is taken for one rune, whatever follows it. */
  lemma EncodedIsRune(c: nat, rest: Str)
    requires Scalar(c)
    ensures RuneWidth(Encoded(c) + rest) == |Encoded(c)|
  {
    hide RuneWidth;
    var s := Encoded(c) + rest;
    assert s[..|Encoded(c)|] == Encoded(c);
    EncodedWidth(c);
    SameRune(Encoded(c), s);
  }

  /** A rune is one whatever follows it. */
  lemma SameRune(r: Str, s: Str)
    requires r != [] && |r| <= |s| && s[..|r|] == r && RuneWidth(r) == |r|
    ensures RuneWidth(s) == |r|
  {
    assert forall i :: 0 <= i < |r| ==> s[i] == r[i];
  }

  lemma EncodedWidth(c: nat)
    requires Scalar(c)
    ensures RuneWidth(Encoded(c)) == |Encoded(c)|
  {
    hide RuneWidth;
    if c < 0x800 {
      ShortWidth(c);
    } else if c < 0x1_0000 {
      ThreeWide(c);
    } else {
      FourWide(c);
    }
  }

  lemma ShortWidth(c: nat)
    requires c < 0x800
    ensures RuneWidth(Encoded(c)) == |Encoded(c)|
  {}

  lemma ThreeWide(c: nat)
    requires Scalar(c) && 0x800 <= c < 0x1_0000
    ensures RuneWidth(Encoded(c)) == 3
  {
    assert c / 0x40 == c / 0x1000 * 0x40 + c / 0x40 % 0x40;
  }

  lemma FourWide(c: nat)
    requires Scalar(c) && c >= 0x1_0000
    ensures RuneWidth(Encoded(c)) == 4
  {
    assert c / 0x1000 == c / 0x4_0000 * 0x40 + c / 0x1000 % 0x40;
  }

  /** Exactly the texts made of scalar values are accepted. */
  lemma ValidIsEncoded(s: Str)
    ensures Valid(s) <==> exists cs: seq<nat> :: (forall c :: c in cs ==> Scalar(c)) && Joined(cs) == s
  {
    if Valid(s) { var _ := Scalars(s); }
    if cs: seq<nat> :| (forall c :: c in cs ==> Scalar(c)) && Joined(cs) == s { JoinedIsValid(cs); }
  }

  lemma {:induction false} Scalars(s: Str) returns (cs: seq<nat>)
    requires Valid(s)
    ensures (forall c :: c in cs ==> Scalar(c)) && Joined(cs) == s
    decreases |s|
  {
    hide RuneWidth, Encoded, Scalar, Decoded;
    cs := [];
    if s != [] {
      RuneIsEncoded(s);
      var more := Scalars(s[RuneWidth(s)..]);
      cs := [Decoded(s)] + more;
      assert cs[1..] == more && s == s[..RuneWidth(s)] + s[RuneWidth(s)..];
    }
  }

  lemma {:induction false} JoinedIsValid(cs: seq<nat>)
    requires forall c :: c in cs ==> Scalar(c)
    ensures Valid(Joined(cs))
    decreases |cs|
  {
    hide RuneWidth, Encoded, Scalar;
    if cs != [] {
      var one, more := Encoded(cs[0]), Joined(cs[1..]);
      EncodedIsRune(cs[0], more);
      JoinedIsValid(cs[1..]);
      assert (one + more)[|one|..] == more;
    }
  }
}
