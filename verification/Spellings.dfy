/** Texts letter by letter: numbers, decimals, identifiers, durations and quoted text as literals say they are. */
module Spellings {
  import opened Words
  import opened Values
  import opened Texts
  import opened Decimals
  import opened Uuids
  import opened Durations
  import Q = Quoting
  import S = Spans
  import E = Literals

  // ---------- numbers ----------

  const DIGITS := "0123456789"

  /** A digit is its character, and a longer number is its tens and then its last digit. */
  lemma NumberIsSpelled(n: nat)
    ensures n < 10 ==> Itoa(n) == [DIGITS[n] as int]
    ensures n >= 10 ==> Itoa(n) == Itoa(n / 10) + Itoa(n % 10)
  {}

  /** No number has a zero in front, but zero itself. */
  lemma {:induction false} NoZeroInFront(n: nat)
    requires n > 0
    ensures Itoa(n)[0] != '0' as int
  {
    if n >= 10 { NoZeroInFront(n / 10); }
  }

  /** These parts make the text, with a minus before them for a mantissa below zero and a point between them. */
  predicate PartsMake(t: Str, m: int, scale: nat, whole: Str, fraction: Str) {
    && t == (if m < 0 then Ascii("-") else []) + whole + (if scale == 0 then [] else Ascii(".")) + fraction
    && whole != [] && |fraction| == scale && AllDigits(whole + fraction)
    && NumberOf(whole + fraction) == (if m < 0 then -m else m)
    && (|whole| > 1 ==> whole[0] != '0' as int)
  }

  /**
   At least one digit before the point and just as many after it as the scale says, no point for no scale, and no
   zero in front that is not the only digit there. A missing mantissa is zero.
   */
  lemma DecimalIsSpelled(mantissa: Option<int>, scale: nat)
    ensures var m := if mantissa.Some? then mantissa.value else 0;
            exists whole, fraction :: PartsMake(DecimalText(mantissa, scale), m, scale, whole, fraction)
  {
    hide NumberOf, Itoa, PartsMake, PaddedDigits, DecimalText;
    var m := if mantissa.Some? then mantissa.value else 0;
    var t, n := DecimalText(mantissa, scale), Magnitude(m);
    var digits := if scale == 0 then Itoa(n) else PaddedDigits(n, scale);
    WholeDigits(n, scale, digits);
    DecimalParts(mantissa, scale, digits);
    assert PartsMake(t, m, scale, digits[..|digits| - scale], digits[|digits| - scale..]);
  }

  /** The digits stand for the magnitude, with no idle zero before the last `scale` of them. */
  lemma WholeDigits(n: nat, scale: nat, digits: Str)
    requires digits == if scale == 0 then Itoa(n) else PaddedDigits(n, scale)
    ensures |digits| > scale && AllDigits(digits) && NumberOf(digits) == n
    ensures |digits| > scale + 1 ==> digits[0] != '0' as int
  {
    hide NumberOf, Itoa;
    NumberReads(n);
    PaddedIsTheNumber(n, scale);
    if n > 0 { NoZeroInFront(n); } else { ZeroIsOneDigit(); }
  }

  lemma DecimalParts(mantissa: Option<int>, scale: nat, digits: Str)
    requires var n := Magnitude(if mantissa.Some? then mantissa.value else 0);
             digits == (if scale == 0 then Itoa(n) else PaddedDigits(n, scale)) && NumberOf(digits) == n
    requires |digits| > scale && (|digits| > scale + 1 ==> digits[0] != '0' as int)
    ensures PartsMake(DecimalText(mantissa, scale), if mantissa.Some? then mantissa.value else 0, scale,
                      digits[..|digits| - scale], digits[|digits| - scale..])
  {
    hide NumberOf, Itoa, PaddedDigits, Ascii, AllDigits, DecimalText;
    SignAndPoint();
    DecimalTextIs(mantissa, scale, digits);
    var whole, fraction := digits[..|digits| - scale], digits[|digits| - scale..];
    assert whole + fraction == digits;
  }

  lemma DecimalTextIs(mantissa: Option<int>, scale: nat, digits: Str)
    requires var n := Magnitude(if mantissa.Some? then mantissa.value else 0);
             digits == if scale == 0 then Itoa(n) else PaddedDigits(n, scale)
    requires |digits| > scale
    ensures DecimalText(mantissa, scale)
         == Sign(if mantissa.Some? then mantissa.value else 0) + digits[..|digits| - scale]
            + (if scale == 0 then [] else [DOT]) + digits[|digits| - scale..]
  {
    hide Itoa, PaddedDigits, AllDigits, Sign, Magnitude;
    var m := if mantissa.Some? then mantissa.value else 0;
    if scale == 0 {
      assert digits[..|digits|] == digits && digits[|digits|..] == [];
      assert Sign(m) + digits + [] + [] == Sign(m) + digits;
    }
  }

  lemma SignAndPoint()
    ensures Ascii("-") == [0x2d] && Ascii(".") == [0x2e]
  {}

  lemma ZeroIsOneDigit()
    ensures |Itoa(0)| == 1
  {}

  // ---------- identifiers ----------

  const HEX := "0123456789abcdef"

  /** Where byte i of an identifier stands in its text. */
  function PlaceOf(i: nat): nat {
    2 * i + if i < 4 then 0 else if i < 6 then 1 else if i < 8 then 2 else if i < 10 then 3 else 4
  }

  lemma {:induction false} HexAt(bytes: Str, i: nat)
    requires i < |bytes|
    ensures Hex(bytes)[2 * i] == HexDigit(bytes[i] / 16) && Hex(bytes)[2 * i + 1] == HexDigit(bytes[i] % 16)
  {
    if i > 0 { HexAt(bytes[1..], i - 1); }
  }

  /** Sixteen bytes in order, two lower-case hex digits each, with hyphens after the fourth, sixth, eighth and tenth. */
  lemma UuidIsSpelled(u: Sixteen, i: nat)
    requires i < 16
    ensures var t := UuidText(u);
            && |t| == 36
            && t[PlaceOf(i)] == HEX[u[i] / 16] as int && t[PlaceOf(i) + 1] == HEX[u[i] % 16] as int
            && t[8] == t[13] == t[18] == t[23] == '-' as int
  {
    hide Hex;
    var h := Hex(u);
    HexAt(u, i);
    var t := UuidText(u);
    assert t[PlaceOf(i)] == h[2 * i] && t[PlaceOf(i) + 1] == h[2 * i + 1];
  }

  // ---------- durations ----------

  /** A count of one unit. */
  lemma OneUnitReads(n: nat, k: nat)
    requires n <= MAX_I64 && k < |UNITS| && Add(Span(0, 0), n, UNITS[k]).Some?
    ensures ReadDuration(Itoa(n) + Ascii(UNITS[k].suffix))
         == Some(Settled(Add(Span(0, 0), n, UNITS[k]).value, false))
  {
    hide Itoa, NumberOf, Scan, Add, Settled, Ascii;
    NumberReads(n);
    var t := Itoa(n) + Ascii(UNITS[k].suffix);
    assert t + [] == t;
    DigitsPartReads(Itoa(n), k, [], Span(0, 0));
    NothingScans(Add(Span(0, 0), n, UNITS[k]).value);
    assert t[0] == Itoa(n)[0];
  }

  lemma AddLong(n: nat)
    requires n <= MAX_I64 / 3600
    ensures Add(Span(0, 0), n, HOUR) == Some(Span(n * 3600, 0)) && Add(Span(0, 0), n, MINUTE) == Some(Span(n * 60, 0))
    ensures Add(Span(0, 0), n, SECOND) == Some(Span(n, 0))
  {
    hide Wrap;
    WrapIsIdentity(n * 3600);
    WrapIsIdentity(n * 60);
    WrapIsIdentity(n);
  }

  lemma SettledLong(s: nat)
    requires s < TWO_63
    ensures Settled(Span(s, 0), false) == Span(s, 0)
  {}

  /** Hours, minutes and seconds by their letters. */
  lemma LongUnitsSay(n: nat)
    requires n <= 0x7fff_ffff_ffff_ffff / 3600
    ensures ReadDuration(Itoa(n) + Ascii("h")) == Some(Span(n * 3600, 0))
    ensures ReadDuration(Itoa(n) + Ascii("m")) == Some(Span(n * 60, 0))
    ensures ReadDuration(Itoa(n) + Ascii("s")) == Some(Span(n, 0))
  {
    hide Itoa, ReadDuration, Ascii, Settled, Add;
    AddLong(n);
    OneUnitReads(n, 0);
    OneUnitReads(n, 2);
    OneUnitReads(n, 3);
    SettledLong(n * 3600);
    SettledLong(n * 60);
    SettledLong(n);
  }

  lemma AddShort(n: nat)
    requires n <= 0x7fff_ffff_ffff_ffff / 1_000_000
    ensures Add(Span(0, 0), n, MILLI) == Some(Span(0, n * 1_000_000))
    ensures Add(Span(0, 0), n, MICRO) == Some(Span(0, n * 1_000)) && Add(Span(0, 0), n, NANO) == Some(Span(0, n))
  {
    hide Wrap;
    WrapIsIdentity(n * 1_000_000);
    WrapIsIdentity(n * 1_000);
    WrapIsIdentity(n);
  }

  /** Milliseconds, microseconds and nanoseconds by theirs. */
  lemma ShortUnitsSay(n: nat)
    requires n <= 0x7fff_ffff_ffff_ffff / 1_000_000
    ensures ReadDuration(Itoa(n) + Ascii("ms")) == Some(Span(n / 1_000, n % 1_000 * 1_000_000))
    ensures ReadDuration(Itoa(n) + Ascii("us")) == Some(Span(n / 1_000_000, n % 1_000_000 * 1_000))
    ensures ReadDuration(Itoa(n) + Ascii("ns")) == Some(Span(n / 1_000_000_000, n % 1_000_000_000))
  {
    hide Itoa, ReadDuration, Ascii, Settled, Add;
    AddShort(n);
    OneUnitReads(n, 1);
    OneUnitReads(n, 4);
    OneUnitReads(n, 5);
    SettledShort(n * 1_000_000);
    SettledShort(n * 1_000);
    SettledShort(n);
    ManyNanos(n);
  }

  lemma ManyNanos(n: nat)
    ensures n * 1_000_000 / 1_000_000_000 == n / 1_000 && n * 1_000_000 % 1_000_000_000 == n % 1_000 * 1_000_000
    ensures n * 1_000 / 1_000_000_000 == n / 1_000_000 && n * 1_000 % 1_000_000_000 == n % 1_000_000 * 1_000
  {}

  lemma SettledShort(nanos: nat)
    requires nanos < TWO_63
    ensures Settled(Span(0, nanos), false) == Span(nanos / 1_000_000_000, nanos % 1_000_000_000)
  {}

  /** There is no seventh unit. */
  lemma SixUnits(unit: Unit)
    ensures unit in UNITS <==> unit in {Unit("h", 3600, 0), Unit("m", 60, 0), Unit("s", 1, 0), Unit("ms", 0, 1_000_000),
                                        Unit("us", 0, 1_000), Unit("ns", 0, 1)}
  {}

  /** What an int64 keeps: the number itself exactly when it fits, and always the same remainder. */
  lemma WrapIsInt64(n: int)
    ensures Wrap(n) == n <==> -0x8000_0000_0000_0000 <= n < 0x8000_0000_0000_0000
    ensures (Wrap(n) - n) % 0x1_0000_0000_0000_0000 == 0
  {}

  /** A span's units are these eight and no other. */
  lemma EightUnits(unit: string)
    ensures unit in S.UNITS <==> unit in {"ns", "us", "ms", "s", "m", "h", "d", "w"}
  {}

  // ---------- quoted text and literals ----------

  /** A quote and a backslash have a backslash before them, and a letter does not. */
  lemma QuotesAreSpelled()
    ensures Q.Quoted(Ascii("a'")) == Ascii("'a\\''") && Q.Quoted(Ascii("\\")) == Ascii("'\\\\'")
  {
    assert Ascii("a'")[1..] == [0x27] && [0x27][1..] == [] && Ascii("\\") == [0x5c] && [0x5c][1..] == [];
    assert Q.Escaped([0x27]) == [0x5c] + [0x27] + Q.Escaped([]);
  }

  /** A rune of two bytes stays as it is, and U+FFFD takes the place of a byte that begins none. */
  lemma RunesAreSpelled()
    ensures Q.Quoted([0xc3, 0xa9]) == [0x27, 0xc3, 0xa9, 0x27]
    ensures Q.Quoted([0xff]) == [0x27, 0xef, 0xbf, 0xbd, 0x27]
  {}

  /** A moment with nine digits of a second. */
  predicate IsMoment(t: Str, start: Str, digits: Str, nanos: nat) {
    |digits| == 9 && AllDigits(digits) && NumberOf(digits) == nanos && t == start + Ascii(".") + digits + Ascii("Z")
  }

  /** A float reads as a float, and a moment has nine digits of a second or none. */
  lemma TokensAreSpelled(lib: E.Library, bits: UInt64, seconds: Int64, nanos: UInt32)
    requires nanos < 1_000_000_000
    ensures var t := lib.float(bits);
            E.FloatText(lib, bits) == if '.' as int in t || 'e' as int in t then t else t + Ascii(".0")
    ensures nanos == 0 ==> E.MomentText(lib, seconds, nanos) == lib.moment(seconds) + Ascii("Z")
    ensures nanos > 0 ==>
              exists digits :: IsMoment(E.MomentText(lib, seconds, nanos), lib.moment(seconds), digits, nanos)
  {
    hide Itoa, NumberOf;
    var digits := Itoa(nanos);
    NumberReads(nanos);
    AtMostNine(nanos);
    if |digits| < 9 { ZerosAddNothing(9 - |digits|, digits); }
    assert nanos > 0 ==> IsMoment(E.MomentText(lib, seconds, nanos), lib.moment(seconds), E.Nine(nanos), nanos);
  }

  lemma ThreeMore(n: nat)
    requires n >= 1_000
    ensures |Itoa(n)| == |Itoa(n / 1_000)| + 3
  {
    assert n / 10 / 10 == n / 100 && n / 100 / 10 == n / 1_000;
    assert |Itoa(n)| == |Itoa(n / 10)| + 1 && |Itoa(n / 10)| == |Itoa(n / 100)| + 1;
  }

  lemma {:induction false} AtMostThree(n: nat)
    requires n < 1_000
    ensures |Itoa(n)| <= 3
  {
    if n >= 10 { assert |Itoa(n / 10)| <= 2; }
  }

  lemma AtMostNine(n: nat)
    requires n < 1_000_000_000
    ensures |Itoa(n)| <= 9
  {
    hide Itoa;
    AtMostThree(n / 1_000_000);
    if n < 1_000 { AtMostThree(n); }
    if n >= 1_000 { ThreeMore(n); }
    if 1_000 <= n < 1_000_000 { AtMostThree(n / 1_000); }
    if n >= 1_000_000 {
      assert n / 1_000 / 1_000 == n / 1_000_000;
      ThreeMore(n / 1_000);
    }
  }

  /** The years 0 to 9999 are these days, and a float is not finite when its exponent is all ones, of either sign. */
  lemma WhatHasASpelling(seconds: Int64, bits: UInt64)
    ensures E.InYears(seconds) <==> -719_528 * 86_400 <= seconds < 2_932_897 * 86_400
    ensures E.Finite(bits) <==> bits < 0x7ff0_0000_0000_0000
                                || 0x8000_0000_0000_0000 <= bits < 0xfff0_0000_0000_0000
  {}
}
