/** Decimals as text: how an event spells one (httpseries.go) and how one is read (jsonscalar.go). */
module Decimals {
  import opened Words
  import opened Texts

  const DOT: Byte := 0x2e
  const MINUS: Byte := 0x2d
  const PLUS: Byte := 0x2b

  function Zeros(n: nat): (t: Str)
    ensures |t| == n && AllDigits(t)
  {
    seq(n, i => 0x30)
  }

  function Sign(m: int): Str {
    if m < 0 then [MINUS] else []
  }

  function Magnitude(m: int): nat {
    if m < 0 then -m else m
  }

  /** The digits of a magnitude, with zeros in front until more than `scale` of them stand there. */
  function PaddedDigits(m: nat, scale: nat): (t: Str)
    ensures |t| > scale && AllDigits(t)
  {
    var digits := Itoa(m);
    if |digits| <= scale then Zeros(scale - |digits| + 1) + digits else digits
  }

  /** eventDecimal, without its leading `dec `; a missing mantissa is zero. */
  function DecimalText(mantissa: Option<int>, scale: nat): Str {
    var m := if mantissa.Some? then mantissa.value else 0;
    if scale == 0 then Sign(m) + Itoa(Magnitude(m))
    else
      var digits := PaddedDigits(Magnitude(m), scale);
      Sign(m) + digits[..|digits| - scale] + [DOT] + digits[|digits| - scale..]
  }

  /** The place of the first dot, or the length of a text without one. */
  function Dot(t: Str): (at: nat)
    ensures at <= |t|
    ensures at < |t| ==> t[at] == DOT
  {
    if t == [] || t[0] == DOT then 0 else 1 + Dot(t[1..])
  }

  /** big.Int's SetString in base ten: a sign if there is one, and then digits and nothing else. */
  function ReadInteger(t: Str): Option<int> {
    var signed := t != [] && (t[0] == MINUS || t[0] == PLUS);
    var digits := if signed then t[1..] else t;
    if digits == [] || !AllDigits(digits) then Nothing
    else
      var n: int := NumberOf(digits);
      Some(if signed && t[0] == MINUS then -n else n)
  }

  /** jsonDecimal. */
  function ReadDecimal(source: Str): Option<(int, UInt32)> {
    var dot := Dot(source);
    var dotted := dot < |source|;
    var body, fraction := source[..dot], if dotted then source[dot + 1..] else [];
    var digits := body + fraction;
    if digits == [] || (dotted && fraction == []) then Nothing
    else
      match ReadInteger(digits)
      case Nothing => Nothing
      case Some(mantissa) => Some((mantissa, |fraction| % TWO_32))
  }

  lemma {:induction false} DotAfter(a: Str, rest: Str)
    requires DOT !in a && (rest == [] || rest[0] == DOT)
    ensures Dot(a + rest) == |a|
    decreases |a|
  {
    if a == [] {
      assert a + rest == rest;
    } else {
      assert (a + rest)[0] == a[0] && (a + rest)[1..] == a[1..] + rest;
      DotAfter(a[1..], rest);
    }
  }

  lemma {:induction false} ZerosAddNothing(n: nat, t: Str)
    requires AllDigits(t)
    ensures AllDigits(Zeros(n) + t) && NumberOf(Zeros(n) + t) == NumberOf(t)
    decreases |t|, n
  {
    var s := Zeros(n) + t;
    assert forall i :: 0 <= i < |s| ==> s[i] == if i < n then 0x30 else t[i - n];
    if t != [] {
      assert s[..|s| - 1] == Zeros(n) + t[..|t| - 1];
      ZerosAddNothing(n, t[..|t| - 1]);
    } else if n > 0 {
      assert s[..|s| - 1] == Zeros(n - 1) + [];
      ZerosAddNothing(n - 1, []);
    } else {
      assert s == [];
    }
  }

  lemma PaddedIsTheNumber(m: nat, scale: nat)
    ensures NumberOf(PaddedDigits(m, scale)) == m
  {
    hide NumberOf, Itoa, Zeros;
    NumberReads(m);
    var digits := Itoa(m);
    if |digits| <= scale { ZerosAddNothing(scale - |digits| + 1, digits); }
  }

  lemma SignedReads(m: int, digits: Str)
    requires AllDigits(digits) && digits != [] && NumberOf(digits) == Magnitude(m)
    ensures ReadInteger(Sign(m) + digits) == Some(m)
  {
    hide NumberOf;
    if m < 0 {
      assert (Sign(m) + digits)[0] == MINUS && (Sign(m) + digits)[1..] == digits;
    } else {
      assert IsDigit(digits[0]) && Sign(m) + digits == digits;
    }
  }

  lemma WholeReads(m: int)
    ensures ReadDecimal(Sign(m) + Itoa(Magnitude(m))) == Some((m, 0))
  {
    hide ReadInteger, Itoa, NumberOf;
    var source := Sign(m) + Itoa(Magnitude(m));
    NumberReads(Magnitude(m));
    DotAfter(source, []);
    assert source + [] == source && source[..|source|] == source;
    SignedReads(m, Itoa(Magnitude(m)));
  }

  lemma CutAtDot(body: Str, fraction: Str)
    requires DOT !in body && fraction != []
    ensures ReadDecimal(body + [DOT] + fraction) ==
      match ReadInteger(body + fraction)
      case Nothing => Nothing
      case Some(mantissa) => Some((mantissa, |fraction| % TWO_32))
  {
    hide ReadInteger, Dot;
    var source := body + [DOT] + fraction;
    assert source == body + ([DOT] + fraction);
    DotAfter(body, [DOT] + fraction);
    assert source[..|body|] == body && source[|body| + 1..] == fraction;
  }

  lemma NoDot(m: int, a: Str, b: Str)
    requires AllDigits(a + b)
    ensures DOT !in Sign(m) + a
  {
    assert forall i :: 0 <= i < |a| ==> a[i] == (a + b)[i];
  }

  lemma FractionReads(m: int, a: Str, b: Str)
    requires AllDigits(a + b) && a != [] && b != [] && NumberOf(a + b) == Magnitude(m) && |b| < TWO_32
    ensures ReadDecimal(Sign(m) + a + [DOT] + b) == Some((m, |b|))
  {
    hide ReadInteger, NumberOf, ReadDecimal, AllDigits, Sign;
    NoDot(m, a, b);
    CutAtDot(Sign(m) + a, b);
    Assoc(Sign(m), a, b);
    SignedReads(m, a + b);
  }

  /** Any mantissa at any scale reads back: zero, negatives, and a mantissa shorter than its scale. */
  lemma DecimalReads(mantissa: Option<int>, scale: UInt32)
    ensures ReadDecimal(DecimalText(mantissa, scale)) == Some((if mantissa.Some? then mantissa.value else 0, scale))
  {
    hide ReadDecimal, Itoa, PaddedDigits, NumberOf;
    var m := if mantissa.Some? then mantissa.value else 0;
    if scale == 0 {
      WholeReads(m);
    } else {
      var digits := PaddedDigits(Magnitude(m), scale);
      PaddedIsTheNumber(Magnitude(m), scale);
      var a, b := digits[..|digits| - scale], digits[|digits| - scale..];
      assert a + b == digits;
      FractionReads(m, a, b);
    }
  }
}
