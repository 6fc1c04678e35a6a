/** Durations as text (jsonscalar.go): six units, and 64-bit arithmetic that wraps. */
module Durations {
  import opened Words
  import opened Texts

  const MAX_I64: Int64 := 0x7fff_ffff_ffff_ffff

  /** What an int64 keeps of a number. */
  function Wrap(n: int): Int64 {
    (n + TWO_63) % TWO_64 - TWO_63
  }

  /** Division as Go does it: toward zero. */
  function Quotient(n: int, d: nat): int
    requires d > 0
  {
    if n < 0 then -(-n / d) else n / d
  }

  function Remainder(n: int, d: nat): int
    requires d > 0
  {
    n - d * Quotient(n, d)
  }

  datatype Unit = Unit(suffix: string, seconds: nat, nanos: nat)

  const HOUR := Unit("h", 3600, 0)
  const MILLI := Unit("ms", 0, 1_000_000)
  const MINUTE := Unit("m", 60, 0)
  const SECOND := Unit("s", 1, 0)
  const MICRO := Unit("us", 0, 1_000)
  const NANO := Unit("ns", 0, 1)

  /** The order they are tried in: two characters before the one they start with. */
  const UNITS: seq<Unit> := [HOUR, MILLI, MINUTE, SECOND, MICRO, NANO]

  datatype Span = Span(seconds: Int64, nanos: Int64)

  /** One count of one unit added to a sum, or nothing when the seconds would not fit. */
  function Add(sum: Span, count: nat, unit: Unit): Option<Span> {
    if unit.seconds == 0 then Some(sum.(nanos := Wrap(sum.nanos + Wrap(count * unit.nanos))))
    else if count > MAX_I64 / unit.seconds then Nothing
    else Some(sum.(seconds := Wrap(sum.seconds + count * unit.seconds)))
  }

  function FirstUnit(t: Str, from: nat): (k: nat)
    requires from <= |UNITS|
    ensures from <= k <= |UNITS|
    ensures k < |UNITS| ==> Opens(t, UNITS[k].suffix)
    ensures forall j :: from <= j < k ==> !Opens(t, UNITS[j].suffix)
    decreases |UNITS| - from
  {
    if from == |UNITS| || Opens(t, UNITS[from].suffix) then from else FirstUnit(t, from + 1)
  }

  /** How many digits a text begins with. */
  function Digits(t: Str): (n: nat)
    ensures n <= |t| && AllDigits(t[..n]) && (n < |t| ==> !IsDigit(t[n]))
  {
    if t == [] || !IsDigit(t[0]) then 0 else
      var n := Digits(t[1..]);
      assert t[..n + 1] == [t[0]] + t[1..][..n];
      n + 1
  }

  /** Count and unit, again and again to the end of the text. */
  function Scan(body: Str, sum: Span): Option<Span>
    decreases |body|
  {
    if body == [] then Some(sum)
    else
      var width := Digits(body);
      if width == 0 || NumberOf(body[..width]) > MAX_I64 then Nothing
      else
        var rest := body[width..];
        var k := FirstUnit(rest, 0);
        if k == |UNITS| then Nothing
        else
          match Add(sum, NumberOf(body[..width]), UNITS[k])
          case Nothing => Nothing
          case Some(sum') => Scan(rest[|UNITS[k].suffix|..], sum')
  }

  /** Whole seconds and a remainder that is never negative. */
  function Settled(sum: Span, negative: bool): Span {
    var seconds := Wrap(sum.seconds + Quotient(sum.nanos, NANOS_PER_SECOND));
    var nanos := Remainder(sum.nanos, NANOS_PER_SECOND);
    var s: int := if negative then Wrap(-(seconds as int)) else seconds;
    var n := if negative then -nanos else nanos;
    if n < 0 then Span(Wrap(s - 1), n + NANOS_PER_SECOND) else Span(s, n)
  }

  const MINUS: Byte := 0x2d

  function ReadDuration(source: Str): Option<Span> {
    var negative := source != [] && source[0] == MINUS;
    var body := if negative then source[1..] else source;
    if body == [] then Nothing
    else
      match Scan(body, Span(0, 0))
      case Nothing => Nothing
      case Some(sum) => Some(Settled(sum, negative))
  }

  // ---------- the canonical spelling ----------

  /** A count with its unit, or nothing for none. */
  function Part(count: nat, unit: Unit): Str {
    if count == 0 then [] else Itoa(count) + Ascii(unit.suffix)
  }

  /** So many nanoseconds over the six units, largest first; nothing at all is `0s`. */
  function Spelled(total: nat): Str {
    var s, n := total / NANOS_PER_SECOND, total % NANOS_PER_SECOND;
    if total == 0 then Itoa(0) + Ascii("s")
    else
      Part(s / 3600, HOUR) + (Part(s / 60 % 60, MINUTE) + (Part(s % 60, SECOND)
      + (Part(n / 1_000_000, MILLI) + (Part(n / 1_000 % 1_000, MICRO) + Part(n % 1_000, NANO)))))
  }

  function TotalNanos(seconds: int, nanos: int): int {
    seconds * NANOS_PER_SECOND + nanos
  }

  /** The one canonical text of a duration: a minus for one below zero, and the magnitude. */
  function Canonical(seconds: Int64, nanos: nat): Str {
    var total := TotalNanos(seconds, nanos);
    if total < 0 then [MINUS] + Spelled(-total) else Spelled(total)
  }

  // ---------- reading it back ----------

  /** A unit is followed by nothing or by a digit, so the first that fits is the one that was written. */
  lemma UnitReads(k: nat, rest: Str)
    requires k < |UNITS| && (rest == [] || IsDigit(rest[0]))
    ensures FirstUnit(Ascii(UNITS[k].suffix) + rest, 0) == k
  {
    hide FirstUnit, Opens, Ascii;
    var t := Ascii(UNITS[k].suffix) + rest;
    var f := FirstUnit(t, 0);
    OpensWith(UNITS[k].suffix, rest);
    if f < k { EarlierUnit(f, k, rest); }
  }

  lemma EarlierUnit(j: nat, k: nat, rest: Str)
    requires j < k < |UNITS| && (rest == [] || IsDigit(rest[0]))
    ensures !Opens(Ascii(UNITS[k].suffix) + rest, UNITS[j].suffix)
  {
    if UNITS[k].suffix[0] != UNITS[j].suffix[0] {
      Apart(UNITS[k].suffix, rest, UNITS[j].suffix, 0);
    } else {
      var t := Ascii("m") + rest;
      assert |t| >= 2 ==> t[1] == rest[0];
    }
  }

  lemma DigitsRead(digits: Str, rest: Str)
    requires AllDigits(digits) && (rest == [] || !IsDigit(rest[0]))
    ensures Digits(digits + rest) == |digits|
    ensures (digits + rest)[..|digits|] == digits && (digits + rest)[|digits|..] == rest
  {
    var t := digits + rest;
    assert forall i :: 0 <= i < |digits| ==> t[i] == digits[i];
    assert rest != [] ==> t[|digits|] == rest[0];
  }

  lemma SuffixIsNoDigit(k: nat)
    requires k < |UNITS|
    ensures Ascii(UNITS[k].suffix) != [] && !IsDigit(Ascii(UNITS[k].suffix)[0])
  {}

  predicate Starts(rest: Str) {
    rest == [] || IsDigit(rest[0])
  }

  /** Reading one part adds its count; a part of nothing is not there and adds nothing. */
  lemma PartReads(count: nat, k: nat, rest: Str, sum: Span)
    requires k < |UNITS| && Starts(rest) && count <= MAX_I64
    requires count > 0 ==> Add(sum, count, UNITS[k]).Some?
    ensures Scan(Part(count, UNITS[k]) + rest, sum)
         == Scan(rest, if count == 0 then sum else Add(sum, count, UNITS[k]).value)
    ensures Starts(Part(count, UNITS[k]) + rest)
  {
    if count == 0 {
      assert Part(count, UNITS[k]) + rest == rest;
    } else {
      OnePartReads(count, k, rest, sum);
    }
  }

  lemma OnePartReads(count: nat, k: nat, rest: Str, sum: Span)
    requires k < |UNITS| && Starts(rest) && count <= MAX_I64 && Add(sum, count, UNITS[k]).Some?
    ensures var t := Itoa(count) + Ascii(UNITS[k].suffix) + rest;
            Starts(t) && Scan(t, sum) == Scan(rest, Add(sum, count, UNITS[k]).value)
  {
    hide Itoa, NumberOf, Add, Ascii, Scan;
    NumberReads(count);
    DigitsPartReads(Itoa(count), k, rest, sum);
  }

  /** However the count is spelled, leading zeros and all. */
  lemma DigitsPartReads(digits: Str, k: nat, rest: Str, sum: Span)
    requires digits != [] && AllDigits(digits) && NumberOf(digits) <= MAX_I64
    requires k < |UNITS| && Starts(rest) && Add(sum, NumberOf(digits), UNITS[k]).Some?
    ensures var t := digits + Ascii(UNITS[k].suffix) + rest;
            Starts(t) && Scan(t, sum) == Scan(rest, Add(sum, NumberOf(digits), UNITS[k]).value)
  {
    hide NumberOf, FirstUnit, Add, Ascii, Digits;
    var tail := Ascii(UNITS[k].suffix) + rest;
    var t := digits + Ascii(UNITS[k].suffix) + rest;
    assert t == digits + tail;
    SuffixIsNoDigit(k);
    DigitsRead(digits, tail);
    UnitReads(k, rest);
    assert tail[|UNITS[k].suffix|..] == rest;
    assert t[0] == digits[0];
  }

  lemma PartStarts(count: nat, unit: Unit, rest: Str)
    requires Starts(rest)
    ensures Starts(Part(count, unit) + rest)
  {
    if count == 0 {
      assert Part(count, unit) + rest == rest;
    } else {
      assert (Part(count, unit) + rest)[0] == Itoa(count)[0];
    }
  }

  lemma WrapIsIdentity(n: int)
    requires -TWO_63 <= n < TWO_63
    ensures Wrap(n) == n
  {}

  lemma WrapAdds(a: int, b: int)
    ensures Wrap(Wrap(a) + b) == Wrap(a + b)
  {}

  lemma WrapNegates(a: int)
    ensures Wrap(-(Wrap(a) as int)) == Wrap(-a)
  {}

  /** Hours, minutes and seconds add up to the whole seconds, as far as an int64 keeps them. */
  lemma SecondsRead(s: nat, rest: Str)
    requires Starts(rest) && s <= TWO_63
    ensures Scan(Part(s / 3600, HOUR) + (Part(s / 60 % 60, MINUTE) + (Part(s % 60, SECOND) + rest)), Span(0, 0))
         == Scan(rest, Span(Wrap(s), 0))
  {
    hide Scan, Part, Wrap;
    var h, m, x := s / 3600, s / 60 % 60, s % 60;
    assert s == h * 3600 + m * 60 + x && s / 60 == h * 60 + m by { SixtyTwice(s); }
    PartStarts(x, SECOND, rest);
    PartStarts(m, MINUTE, Part(x, SECOND) + rest);
    var one, two := Span(Wrap(h * 3600), 0), Span(Wrap(h * 3600 + m * 60), 0);
    WrapIsIdentity(0);
    WrapAdds(h * 3600, m * 60);
    WrapAdds(h * 3600 + m * 60, x);
    PartReads(h, 0, Part(m, MINUTE) + (Part(x, SECOND) + rest), Span(0, 0));
    PartReads(m, 2, Part(x, SECOND) + rest, one);
    PartReads(x, 3, rest, two);
    Lone(h, 3600, Span(0, 0));
    assert (if h == 0 then Span(0, 0) else Add(Span(0, 0), h, HOUR).value) == one;
    assert (if m == 0 then one else Add(one, m, MINUTE).value) == two;
    assert (if x == 0 then two else Add(two, x, SECOND).value) == Span(Wrap(s), 0);
  }

  lemma Lone(h: nat, unit: nat, sum: Span)
    requires sum == Span(0, 0)
    ensures Wrap(sum.seconds + h * unit) == Wrap(h * unit)
  {}

  lemma SixtyTwice(s: nat)
    ensures s == s / 3600 * 3600 + s / 60 % 60 * 60 + s % 60 && s / 60 == s / 3600 * 60 + s / 60 % 60
  {
    assert s / 60 / 60 == s / 3600;
    assert s == s / 60 * 60 + s % 60;
    assert s / 60 == s / 60 / 60 * 60 + s / 60 % 60;
  }

  /** Milliseconds, microseconds and nanoseconds add up to the rest of a second. */
  lemma NanosRead(n: nat, seconds: Int64)
    requires n < NANOS_PER_SECOND
    ensures Scan(Part(n / 1_000_000, MILLI) + (Part(n / 1_000 % 1_000, MICRO) + Part(n % 1_000, NANO)),
                 Span(seconds, 0))
         == Some(Span(seconds, n))
    ensures Starts(Part(n / 1_000_000, MILLI) + (Part(n / 1_000 % 1_000, MICRO) + Part(n % 1_000, NANO)))
  {
    hide Part, Wrap, Scan;
    var a, b, c := n / 1_000_000, n / 1_000 % 1_000, n % 1_000;
    assert n == a * 1_000_000 + b * 1_000 + c by { ThousandTwice(n); }
    assert Part(c, NANO) + [] == Part(c, NANO);
    PartStarts(c, NANO, []);
    PartStarts(b, MICRO, Part(c, NANO));
    PartStarts(a, MILLI, Part(b, MICRO) + Part(c, NANO));
    var one, two := Span(seconds, a * 1_000_000), Span(seconds, a * 1_000_000 + b * 1_000);
    WrapIsIdentity(0);
    WrapIsIdentity(a * 1_000_000);
    WrapIsIdentity(b * 1_000);
    WrapIsIdentity(c);
    WrapIsIdentity(a * 1_000_000 + b * 1_000);
    WrapIsIdentity(n);
    PartReads(a, 1, Part(b, MICRO) + Part(c, NANO), Span(seconds, 0));
    PartReads(b, 4, Part(c, NANO), one);
    PartReads(c, 5, [], two);
    NothingScans(Span(seconds, n));
    assert (if a == 0 then Span(seconds, 0) else Add(Span(seconds, 0), a, MILLI).value) == one;
    assert (if b == 0 then one else Add(one, b, MICRO).value) == two;
    assert (if c == 0 then two else Add(two, c, NANO).value) == Span(seconds, n);
  }

  lemma NothingScans(sum: Span)
    ensures Scan([], sum) == Some(sum)
  {}

  lemma ThousandTwice(n: nat)
    ensures n == n / 1_000_000 * 1_000_000 + n / 1_000 % 1_000 * 1_000 + n % 1_000
  {
    assert n / 1_000 / 1_000 == n / 1_000_000;
    assert n == n / 1_000 * 1_000 + n % 1_000;
  }

  lemma SpelledReads(total: nat)
    requires total / NANOS_PER_SECOND <= TWO_63
    ensures Scan(Spelled(total), Span(0, 0)) == Some(Span(Wrap(total / NANOS_PER_SECOND), total % NANOS_PER_SECOND))
    ensures Spelled(total) != [] && Spelled(total)[0] != MINUS
  {
    hide Scan, Part, Wrap;
    var s, n := total / NANOS_PER_SECOND, total % NANOS_PER_SECOND;
    if total == 0 {
      ZeroReads();
    } else {
      var rest := Part(n / 1_000_000, MILLI) + (Part(n / 1_000 % 1_000, MICRO) + Part(n % 1_000, NANO));
      NanosRead(n, Wrap(s));
      SecondsRead(s, rest);
      SomethingIsSpelled(total);
    }
  }

  lemma ZeroReads()
    ensures Scan(Itoa(0) + Ascii("s"), Span(0, 0)) == Some(Span(Wrap(0), 0))
    ensures (Itoa(0) + Ascii("s"))[0] != MINUS
  {
    hide Scan, Itoa;
    OnePartReads(0, 3, [], Span(0, 0));
    assert Itoa(0) + Ascii("s") + [] == Itoa(0) + Ascii("s");
    NothingScans(Span(0, 0));
  }

  lemma SomethingIsSpelled(total: nat)
    requires total > 0
    ensures Spelled(total) != [] && Spelled(total)[0] != MINUS
  {
    hide Itoa, Ascii;
    var s, n := total / NANOS_PER_SECOND, total % NANOS_PER_SECOND;
    SixtyTwice(s);
    ThousandTwice(n);
    var t5 := Part(n / 1_000 % 1_000, MICRO) + Part(n % 1_000, NANO);
    var t4 := Part(n / 1_000_000, MILLI) + t5;
    var t3 := Part(s % 60, SECOND) + t4;
    var t2 := Part(s / 60 % 60, MINUTE) + t3;
    assert Part(n % 1_000, NANO) + [] == Part(n % 1_000, NANO);
    PartStarts(n % 1_000, NANO, []);
    PartStarts(n / 1_000 % 1_000, MICRO, Part(n % 1_000, NANO));
    PartStarts(n / 1_000_000, MILLI, t5);
    PartStarts(s % 60, SECOND, t4);
    PartStarts(s / 60 % 60, MINUTE, t3);
    PartStarts(s / 3600, HOUR, t2);
  }

  /**
   The canonical text of every duration an int64 of seconds holds reads back to it, in the floor form:
   nanoseconds from 0 to 10^9 - 1 whatever the sign, and the least int64 included.
   */
  lemma DurationReads(seconds: Int64, nanos: nat)
    requires nanos < NANOS_PER_SECOND
    ensures ReadDuration(Canonical(seconds, nanos)) == Some(Span(seconds, nanos))
  {
    hide Scan, Spelled, Wrap;
    var total := TotalNanos(seconds, nanos);
    var magnitude: nat := if total < 0 then -total else total;
    Floor(seconds, nanos);
    SpelledReads(magnitude);
    assert total < 0 ==> Canonical(seconds, nanos)[1..] == Spelled(magnitude);
    SettledReads(seconds, nanos);
  }

  lemma Floor(seconds: int, nanos: nat)
    requires nanos < NANOS_PER_SECOND
    ensures var total := TotalNanos(seconds, nanos);
            && (total < 0 <==> seconds < 0)
            && (seconds >= 0 ==> total / NANOS_PER_SECOND == seconds && total % NANOS_PER_SECOND == nanos)
            && (seconds < 0 && nanos == 0 ==> -total / NANOS_PER_SECOND == -seconds && -total % NANOS_PER_SECOND == 0)
            && (seconds < 0 && nanos > 0 ==>
                  -total / NANOS_PER_SECOND == -seconds - 1 && -total % NANOS_PER_SECOND == NANOS_PER_SECOND - nanos)
  {}

  lemma SettledReads(seconds: Int64, nanos: nat)
    requires nanos < NANOS_PER_SECOND
    ensures var total := TotalNanos(seconds, nanos);
            var magnitude: nat := if total < 0 then -total else total;
            var sum := Span(Wrap(magnitude / NANOS_PER_SECOND), magnitude % NANOS_PER_SECOND);
            Settled(sum, total < 0) == Span(seconds, nanos)
  {
    hide TotalNanos, Wrap;
    Floor(seconds, nanos);
    var total := TotalNanos(seconds, nanos);
    var magnitude: nat := if total < 0 then -total else total;
    var s, n := magnitude / NANOS_PER_SECOND, magnitude % NANOS_PER_SECOND;
    assert Quotient(n, NANOS_PER_SECOND) == 0 && Remainder(n, NANOS_PER_SECOND) == n;
    WrapAdds(s, 0);
    WrapNegates(s);
    WrapIsIdentity(seconds);
    if seconds < 0 && nanos > 0 {
      WrapIsIdentity(seconds + 1);
    }
  }

  // ---------- any text of counts and units ----------

  /** The digits of a count, and the place of its unit. */
  datatype Count = Count(digits: Str, k: nat)

  /** A count the code takes: within int64, and for a unit of seconds within its guard. */
  predicate Taken(c: Count) {
    && c.k < |UNITS| && c.digits != [] && AllDigits(c.digits) && NumberOf(c.digits) <= MAX_I64
    && (UNITS[c.k].seconds > 0 ==> NumberOf(c.digits) <= MAX_I64 / UNITS[c.k].seconds)
  }

  predicate AllTaken(cs: seq<Count>) {
    forall i :: 0 <= i < |cs| ==> Taken(cs[i])
  }

  function CountsText(cs: seq<Count>): Str
    requires AllTaken(cs)
  {
    if cs == [] then [] else cs[0].digits + Ascii(UNITS[cs[0].k].suffix) + CountsText(cs[1..])
  }

  function SecondsOf(cs: seq<Count>): nat
    requires AllTaken(cs)
  {
    if cs == [] then 0 else NumberOf(cs[0].digits) * UNITS[cs[0].k].seconds + SecondsOf(cs[1..])
  }

  function NanosOf(cs: seq<Count>): nat
    requires AllTaken(cs)
  {
    if cs == [] then 0 else NumberOf(cs[0].digits) * UNITS[cs[0].k].nanos + NanosOf(cs[1..])
  }

  lemma AddWraps(sum: Span, n: nat, k: nat)
    requires k < |UNITS| && (UNITS[k].seconds > 0 ==> n <= MAX_I64 / UNITS[k].seconds)
    ensures Add(sum, n, UNITS[k])
         == Some(Span(Wrap(sum.seconds + n * UNITS[k].seconds), Wrap(sum.nanos + n * UNITS[k].nanos)))
  {
    hide Wrap;
    WrapIsIdentity(sum.seconds);
    WrapIsIdentity(sum.nanos);
    WrapAdds(n * UNITS[k].nanos, sum.nanos);
    assert UNITS[k].seconds == 0 || UNITS[k].nanos == 0;
  }

  /** In whatever order and however often, counts and units add up as far as an int64 keeps them. */
  lemma {:induction false} CountsRead(cs: seq<Count>, sum: Span)
    requires AllTaken(cs)
    ensures Scan(CountsText(cs), sum) == Some(Span(Wrap(sum.seconds + SecondsOf(cs)), Wrap(sum.nanos + NanosOf(cs))))
    ensures Starts(CountsText(cs))
    decreases |cs|
  {
    hide Scan, Wrap, NumberOf, Add, Ascii;
    if cs == [] {
      NothingScans(sum);
      WrapIsIdentity(sum.seconds);
      WrapIsIdentity(sum.nanos);
    } else {
      var c, n := cs[0], NumberOf(cs[0].digits);
      assert Taken(c);
      AddWraps(sum, n, c.k);
      var next := Add(sum, n, UNITS[c.k]).value;
      CountsRead(cs[1..], next);
      DigitsPartReads(c.digits, c.k, CountsText(cs[1..]), sum);
      WrapAdds(sum.seconds + n * UNITS[c.k].seconds, SecondsOf(cs[1..]));
      WrapAdds(sum.nanos + n * UNITS[c.k].nanos, NanosOf(cs[1..]));
    }
  }

  /** What is read begins with a count and its unit. */
  lemma CountIsFirst(body: Str, sum: Span) returns (c: Count, rest: Str, next: Span)
    requires body != [] && Scan(body, sum).Some?
    ensures Taken(c) && body == c.digits + (Ascii(UNITS[c.k].suffix) + rest) && |rest| < |body|
    ensures Scan(rest, next).Some?
  {
    hide NumberOf, FirstUnit, Ascii, Scan, Digits, Opens;
    var width := Digits(body);
    ScanStep(body, sum);
    var digits, left := body[..width], body[width..];
    var k := FirstUnit(left, 0);
    c, rest, next := Count(digits, k), Past(left, UNITS[k].suffix), Add(sum, NumberOf(digits), UNITS[k]).value;
  }

  /** And no other text is read. */
  lemma {:induction false} OnlyCountsAreRead(body: Str, sum: Span) returns (cs: seq<Count>)
    requires Scan(body, sum).Some?
    ensures AllTaken(cs) && CountsText(cs) == body
    decreases |body|
  {
    hide Scan, Ascii, NumberOf;
    cs := [];
    if body != [] {
      var c, rest, next := CountIsFirst(body, sum);
      var more := OnlyCountsAreRead(rest, next);
      cs := [c] + more;
      assert cs[1..] == more;
      Assoc(c.digits, Ascii(UNITS[c.k].suffix), rest);
    }
  }

  /** What the counts come to fits: the small units in an int64 of nanoseconds, and the whole in one of seconds. */
  predicate Fits(seconds: nat, nanos: nat, negative: bool) {
    && nanos < TWO_63
    && (if negative then TotalNanos(seconds, nanos) <= TotalNanos(TWO_63, 0)
        else TotalNanos(seconds, nanos) < TotalNanos(TWO_63, 0))
  }

  /** A text of counts and units, behind a minus or not. */
  predicate Spells(text: Str, cs: seq<Count>, negative: bool) {
    cs != [] && AllTaken(cs) && text == (if negative then [MINUS] else []) + CountsText(cs)
  }

  /** The span read is what the counts come to. */
  predicate ReadRight(text: Str, cs: seq<Count>, negative: bool)
    requires AllTaken(cs)
  {
    match ReadDuration(text)
    case Nothing => false
    case Some(read) =>
      var total := TotalNanos(SecondsOf(cs), NanosOf(cs));
      TotalNanos(read.seconds, read.nanos) == if negative then -total else total
  }

  /**
   The texts that are read are those of counts and units, in any order. Such a text is read right exactly
   when its sums fit: the guard is on each product of seconds, and nothing guards the sums or the smaller units.
   */
  lemma SumsAreExact(text: Str)
    ensures ReadDuration(text).Some? <==> exists cs, negative :: Spells(text, cs, negative)
    ensures forall cs, negative :: Spells(text, cs, negative) ==>
              (ReadRight(text, cs, negative) <==> Fits(SecondsOf(cs), NanosOf(cs), negative))
  {
    hide Scan, CountsText, SecondsOf, NanosOf, Settled, TotalNanos, Fits;
    forall cs, negative | Spells(text, cs, negative)
      ensures ReadDuration(text).Some?
              && (ReadRight(text, cs, negative) <==> Fits(SecondsOf(cs), NanosOf(cs), negative))
    {
      TheseSumsAreExact(text, cs, negative);
    }
    if ReadDuration(text).Some? {
      var negative := text != [] && text[0] == MINUS;
      var body := if negative then text[1..] else text;
      var cs := OnlyCountsAreRead(body, Span(0, 0));
      NothingIsNoText();
      assert cs != [];
      assert Spells(text, cs, negative);
    }
  }

  lemma NothingIsNoText()
    ensures CountsText([]) == []
  {}

  lemma TheseSumsAreExact(text: Str, cs: seq<Count>, negative: bool)
    requires Spells(text, cs, negative)
    ensures ReadDuration(text).Some? && (ReadRight(text, cs, negative) <==> Fits(SecondsOf(cs), NanosOf(cs), negative))
  {
    hide Scan, Wrap, CountsText, SecondsOf, NanosOf, Settled, TotalNanos, Fits;
    var body := CountsText(cs);
    CountsRead(cs, Span(0, 0));
    assert negative ==> text[1..] == body;
    assert !negative ==> text == body;
    SomethingIsCounted(cs);
    SettledIsExact(SecondsOf(cs), NanosOf(cs), negative);
  }

  lemma SomethingIsCounted(cs: seq<Count>)
    requires cs != [] && AllTaken(cs)
    ensures CountsText(cs) != [] && CountsText(cs)[0] != MINUS
  {
    hide Ascii;
    assert Taken(cs[0]) && CountsText(cs)[0] == cs[0].digits[0];
  }

  /** The largest count of seconds, and one second more. */
  const TOO_MUCH := [Count(Itoa(MAX_I64), 3), Count(Itoa(1), 3)]

  lemma TooMuchIsTaken()
    ensures AllTaken(TOO_MUCH) && SecondsOf(TOO_MUCH) == TWO_63 && NanosOf(TOO_MUCH) == 0
  {
    hide Itoa, NumberOf;
    NumberReads(MAX_I64);
    NumberReads(1);
    var rest := TOO_MUCH[1..];
    assert rest == [Count(Itoa(1), 3)] && rest[1..] == [];
    assert SecondsOf([]) == 0 && NanosOf([]) == 0;
    assert SecondsOf(rest) == 1 && NanosOf(rest) == 0;
  }

  lemma LeastIsSettled()
    ensures Wrap(TWO_63) == -TWO_63 && Wrap(0) == 0 && Settled(Span(-TWO_63, 0), false) == Span(-TWO_63, 0)
  {
    assert Wrap(-TWO_63) == -TWO_63;
  }

  /** The sum wraps: the text is read as 2^63 seconds below zero. */
  lemma SumCanWrap()
    ensures AllTaken(TOO_MUCH) && Spells(CountsText(TOO_MUCH), TOO_MUCH, false)
    ensures !ReadRight(CountsText(TOO_MUCH), TOO_MUCH, false)
    ensures ReadDuration(CountsText(TOO_MUCH)) == Some(Span(-TWO_63, 0))
  {
    hide Scan, CountsText, SecondsOf, NanosOf, Wrap, Settled, TOO_MUCH, AllTaken, ReadRight;
    TooMuchIsTaken();
    assert TOO_MUCH != [] by { NotNothing(); }
    SomethingIsCounted(TOO_MUCH);
    var text := CountsText(TOO_MUCH);
    assert [] + text == text;
    CountsRead(TOO_MUCH, Span(0, 0));
    LeastIsSettled();
    TheseSumsAreExact(text, TOO_MUCH, false);
  }

  lemma NotNothing()
    ensures TOO_MUCH != []
  {}

  /** How often a sum wrapped. */
  lemma Wraps(n: int) returns (k: int)
    ensures Wrap(n) == n - k * TWO_64
    ensures k == 0 <==> -TWO_63 <= n < TWO_63
    ensures n >= 0 ==> k >= 0
  {
    k := (n + TWO_63) / TWO_64;
  }

  lemma Truncated(w: int)
    ensures w == Quotient(w, NANOS_PER_SECOND) * NANOS_PER_SECOND + Remainder(w, NANOS_PER_SECOND)
    ensures -NANOS_PER_SECOND < Remainder(w, NANOS_PER_SECOND) < NANOS_PER_SECOND
    ensures w >= 0 ==> Quotient(w, NANOS_PER_SECOND) >= 0 && Remainder(w, NANOS_PER_SECOND) >= 0
  {}

  /** A total off by so many wraps of each sum, and still one a duration holds, is the true one only without any. */
  lemma NoWrapHides(total: int, read: int, nanos: nat, b: nat, m: int)
    requires 0 <= nanos <= total && nanos >= b * TWO_64 - TWO_63
    requires read == total - b * TWO_64 - m * TWO_64 * NANOS_PER_SECOND
    requires read <= TWO_63 * NANOS_PER_SECOND
    ensures read == total <==> b == 0 && m == 0
  {
    if read == total {
      assert b + m * NANOS_PER_SECOND == 0;
      assert b < NANOS_PER_SECOND;
    }
  }

  /** What Settled makes of two sums that were kept as far as an int64 keeps them. */
  function Read(seconds: nat, nanos: nat, negative: bool): int {
    var settled := Settled(Span(Wrap(seconds), Wrap(nanos)), negative);
    TotalNanos(settled.seconds, settled.nanos)
  }

  lemma SettledUp(seconds: nat, nanos: nat)
    ensures Read(seconds, nanos, false) == TotalNanos(seconds, nanos) <==> Fits(seconds, nanos, false)
  {
    hide Wrap, Quotient, Remainder;
    var w: int, total := Wrap(nanos), TotalNanos(seconds, nanos);
    var b := Wraps(nanos);
    var q, n := Quotient(w, NANOS_PER_SECOND), Remainder(w, NANOS_PER_SECOND);
    Truncated(w);
    WrapAdds(seconds, q);
    var k := Wraps(seconds + q - if n < 0 then 1 else 0);
    WrapAdds(seconds + q, -1);
    NoWrapHides(total, total - b * TWO_64 - k * TWO_64 * NANOS_PER_SECOND, nanos, b, k);
  }

  lemma SettledDown(seconds: nat, nanos: nat)
    ensures Read(seconds, nanos, true) == -TotalNanos(seconds, nanos) <==> Fits(seconds, nanos, true)
  {
    hide Wrap, Quotient, Remainder;
    var w: int, total := Wrap(nanos), TotalNanos(seconds, nanos);
    var b := Wraps(nanos);
    var q, n := Quotient(w, NANOS_PER_SECOND), Remainder(w, NANOS_PER_SECOND);
    Truncated(w);
    WrapAdds(seconds, q);
    var k := Wraps(-(seconds + q) - if n > 0 then 1 else 0);
    WrapNegates(seconds + q);
    WrapAdds(-(seconds + q), -1);
    NoWrapHides(total, total - b * TWO_64 + k * TWO_64 * NANOS_PER_SECOND, nanos, b, -k);
  }

  lemma SettledIsExact(seconds: nat, nanos: nat, negative: bool)
    ensures var total := TotalNanos(seconds, nanos);
            Read(seconds, nanos, negative) == (if negative then -total else total) <==> Fits(seconds, nanos, negative)
  {
    hide Read, Fits, TotalNanos;
    if negative { SettledDown(seconds, nanos); } else { SettledUp(seconds, nanos); }
  }

  // ---------- jsonDuration ----------

  method GetDuration(source: Str) returns (span: Option<Span>)
    ensures span == ReadDuration(source)
  {
    hide Ascii, Opens, FirstUnit, NumberOf, Wrap, Scan, Digits, Settled;
    var negative := source != [] && source[0] == MINUS;
    var body := if negative then source[1..] else source;
    if body == [] { return Nothing; }
    var seconds: Int64, nanos: Int64 := 0, 0;
    ghost var goal := Scan(body, Span(0, 0));
    while body != []
      invariant Scan(body, Span(seconds, nanos)) == goal
      decreases |body|
    {
      var width := CountDigits(body);
      ScanStep(body, Span(seconds, nanos));
      if width == 0 { return Nothing; }
      var count := NumberOf(body[..width]);
      if count > MAX_I64 { return Nothing; }
      var rest := body[width..];
      var k := FindUnit(rest);
      if k == |UNITS| { return Nothing; }
      var unit := UNITS[k];
      if unit.seconds != 0 {
        if count > MAX_I64 / unit.seconds { return Nothing; }
        seconds := Wrap(seconds + count * unit.seconds);
      } else {
        nanos := Wrap(nanos + Wrap(count * unit.nanos));
      }
      body := Past(rest, unit.suffix);
    }
    NothingScans(Span(seconds, nanos));
    assert goal == Some(Span(seconds, nanos));
    var settled := Settle(seconds, nanos, negative);
    span := Some(settled);
  }

  lemma ScanStep(body: Str, sum: Span)
    requires body != []
    ensures var width := Digits(body);
            && (width == 0 ==> Scan(body, sum).Nothing?)
            && (width > 0 && NumberOf(body[..width]) > MAX_I64 ==> Scan(body, sum).Nothing?)
            && (width > 0 && NumberOf(body[..width]) <= MAX_I64 ==>
                  var rest := body[width..];
                  var k := FirstUnit(rest, 0);
                  && (k == |UNITS| ==> Scan(body, sum).Nothing?)
                  && (k < |UNITS| ==>
                        var next := Add(sum, NumberOf(body[..width]), UNITS[k]);
                        Scan(body, sum) ==
                          if next.Nothing? then Nothing else Scan(Past(rest, UNITS[k].suffix), next.value)))
  {
    hide Ascii, Opens, FirstUnit, NumberOf, Add, Digits;
  }

  method CountDigits(t: Str) returns (width: nat)
    ensures width == Digits(t)
  {
    width := 0;
    while width < |t| && 0x30 <= t[width] <= 0x39
      invariant width <= |t| && Digits(t) == width + Digits(t[width..])
    {
      assert t[width..][1..] == t[width + 1..];
      width := width + 1;
    }
  }

  method FindUnit(t: Str) returns (k: nat)
    ensures k == FirstUnit(t, 0)
  {
    hide Opens;
    k := 0;
    while k < |UNITS| && !Opens(t, UNITS[k].suffix)
      invariant k <= |UNITS| && FirstUnit(t, k) == FirstUnit(t, 0)
    {
      k := k + 1;
    }
  }

  method Settle(seconds: Int64, nanos: Int64, negative: bool) returns (span: Span)
    ensures span == Settled(Span(seconds, nanos), negative)
  {
    hide Wrap;
    var s: int, n: int := Wrap(seconds + Quotient(nanos, NANOS_PER_SECOND)), Remainder(nanos, NANOS_PER_SECOND);
    if negative { s, n := Wrap(-s), -n; }
    if n < 0 {
      s := Wrap(s - 1);
      n := n + NANOS_PER_SECOND;
    }
    span := Span(s, n);
  }
}
