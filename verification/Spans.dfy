/** STALENESS bounds: the span grammar, and the greedy scan that checks it (query.go). */
module Spans {
  import opened Words
  import opened Texts

  const UNITS: seq<string> := ["ms", "ns", "us", "s", "m", "h", "d", "w"]

  datatype Piece = Piece(digits: Str, unit: string)

  predicate WellMade(p: Piece) {
    p.digits != [] && AllDigits(p.digits) && p.unit in UNITS
  }

  function Spelled(pieces: seq<Piece>): Str {
    if pieces == [] then [] else pieces[0].digits + Ascii(pieces[0].unit) + Spelled(pieces[1..])
  }

  /** Some way of cutting the text into digits and units, however the cuts fall. */
  ghost predicate Repeats(t: Str) {
    exists pieces: seq<Piece> :: Spelled(pieces) == t && forall i :: 0 <= i < |pieces| ==> WellMade(pieces[i])
  }

  /** The contract's production, 1*( 1*DIGIT unit ). */
  ghost predicate IsSpan(t: Str) {
    t != [] && Repeats(t)
  }

  lemma EmptyRepeats()
    ensures Repeats([])
  {
    assert Spelled([]) == [];
  }

  lemma OnePieceMore(piece: Piece, t: Str)
    requires WellMade(piece) && Repeats(t)
    ensures Repeats(piece.digits + Ascii(piece.unit) + t)
  {
    hide Ascii, WellMade;
    var pieces: seq<Piece> :| Spelled(pieces) == t && forall i :: 0 <= i < |pieces| ==> WellMade(pieces[i]);
    var more := [piece] + pieces;
    assert more[1..] == pieces;
    assert Spelled(more) == piece.digits + Ascii(piece.unit) + t;
    assert forall i :: 0 <= i < |more| ==> WellMade(more[i]);
  }

  /** However a text is cut, it begins with digits, then a unit, then nothing or a digit. */
  lemma Cut(t: Str) returns (piece: Piece, after: Str)
    requires IsSpan(t)
    ensures WellMade(piece) && t == piece.digits + Ascii(piece.unit) + after && Repeats(after)
    ensures after == [] || IsDigit(after[0])
  {
    hide Ascii, WellMade;
    var pieces: seq<Piece> :| Spelled(pieces) == t && forall i :: 0 <= i < |pieces| ==> WellMade(pieces[i]);
    var more := pieces[1..];
    assert forall i :: 0 <= i < |more| ==> more[i] == pieces[i + 1];
    piece, after := pieces[0], Spelled(more);
    if more != [] { PieceStarts(more[0], Spelled(more[1..])); }
  }

  lemma PieceStarts(piece: Piece, rest: Str)
    requires WellMade(piece)
    ensures var t := piece.digits + Ascii(piece.unit) + rest; t != [] && IsDigit(t[0])
  {
    assert (piece.digits + Ascii(piece.unit) + rest)[0] == piece.digits[0];
  }

  lemma UnitStarts(unit: string)
    requires unit in UNITS
    ensures |unit| > 0 && !IsDigit(Ascii(unit)[0])
  {}

  /** Longest first: the unit the scan takes. */
  ghost predicate Takes(t: Str, k: nat) {
    k < |UNITS| && Opens(t, UNITS[k]) && forall j :: 0 <= j < k ==> !Opens(t, UNITS[j])
  }

  ghost predicate TakesNone(t: Str) {
    forall j :: 0 <= j < |UNITS| ==> !Opens(t, UNITS[j])
  }

  /** A unit that ends a piece is the one the scan takes: a longer one would need a letter where a digit stands. */
  lemma GreedyIsRight(u: nat, after: Str, k: nat)
    requires u < |UNITS| && (after == [] || IsDigit(after[0]))
    requires Takes(Ascii(UNITS[u]) + after, k)
    ensures k == u
  {
    var t := Ascii(UNITS[u]) + after;
    OpensWith(UNITS[u], after);
    assert t[0] == UNITS[u][0] as int % 256 && t[0] == UNITS[k][0] as int % 256;
    assert |UNITS[u]| == 1 && after != [] ==> t[1] == after[0];
    assert |UNITS[k]| == 2 ==> t[1] == UNITS[k][1] as int % 256;
  }

  /** checkSpan. */
  method CheckSpan(text: Str) returns (ok: bool)
    ensures ok <==> IsSpan(text)
  {
    hide Repeats, Opens;
    var rest, seen := text, false;
    EmptyRepeats();
    while rest != []
      invariant Repeats(text) <==> Repeats(rest)
      invariant text != [] <==> seen || rest != []
      decreases |rest|
    {
      var digits := 0;
      while digits < |rest| && 0x30 <= rest[digits] <= 0x39
        invariant digits <= |rest| && AllDigits(rest[..digits])
      {
        assert rest[..digits + 1] == rest[..digits] + [rest[digits]];
        digits := digits + 1;
      }
      if digits == 0 {
        if IsSpan(rest) { DigitsShow(rest); }
        return false;
      }
      var tail := rest[digits..];
      var i := 0;
      while i < |UNITS| && !Opens(tail, UNITS[i])
        invariant 0 <= i <= |UNITS|
        invariant forall j :: 0 <= j < i ==> !Opens(tail, UNITS[j])
      {
        i := i + 1;
      }
      if i == |UNITS| {
        if IsSpan(rest) { UnitShows(rest, digits); }
        return false;
      }
      var left := Past(tail, UNITS[i]);
      OneStep(rest, digits, i);
      rest := left;
      seen := true;
    }
    ok := seen;
  }

  lemma DigitsShow(rest: Str)
    requires IsSpan(rest)
    ensures IsDigit(rest[0])
  {
    var piece, after := Cut(rest);
    assert rest[0] == piece.digits[0];
  }

  lemma UnitShows(rest: Str, digits: nat)
    requires IsSpan(rest) && DigitsEnd(rest, digits)
    ensures !TakesNone(rest[digits..])
  {
    hide Repeats;
    var piece, after := Cut(rest);
    DigitsFit(rest, digits, piece, after);
    OpensWith(piece.unit, after);
  }

  lemma TakesPast(t: Str, k: nat)
    requires Takes(t, k)
    ensures k < |UNITS| && |UNITS[k]| <= |t| && t == Ascii(UNITS[k]) + t[|UNITS[k]|..]
  {}

  /** Nothing is lost by taking the longest unit. */
  lemma OneStep(rest: Str, digits: nat, k: nat)
    requires digits > 0 && DigitsEnd(rest, digits) && k < |UNITS| && Takes(rest[digits..], k)
    requires |UNITS[k]| <= |rest| - digits
    ensures Repeats(rest) <==> Repeats(rest[digits..][|UNITS[k]|..])
  {
    hide Repeats, Takes;
    var tail := rest[digits..];
    var left := tail[|UNITS[k]|..];
    TakesPast(tail, k);
    if Repeats(rest) {
      var piece, after := Cut(rest);
      DigitsFit(rest, digits, piece, after);
      var u :| 0 <= u < |UNITS| && UNITS[u] == piece.unit;
      GreedyIsRight(u, after, k);
    }
    if Repeats(left) {
      OnePieceMore(Piece(rest[..digits], UNITS[k]), left);
      assert rest == rest[..digits] + Ascii(UNITS[k]) + left;
    }
  }

  ghost predicate DigitsEnd(rest: Str, digits: nat) {
    digits <= |rest| && AllDigits(rest[..digits]) && (digits < |rest| ==> !IsDigit(rest[digits]))
  }

  lemma DigitsFit(rest: Str, digits: nat, piece: Piece, after: Str)
    requires DigitsEnd(rest, digits)
    requires WellMade(piece) && rest == piece.digits + Ascii(piece.unit) + after
    ensures digits == |piece.digits| && rest[digits..] == Ascii(piece.unit) + after
  {
    var n := |piece.digits|;
    UnitStarts(piece.unit);
    assert rest[n] == Ascii(piece.unit)[0];
    assert forall i :: 0 <= i < digits ==> rest[..digits][i] == rest[i];
    assert forall i :: 0 <= i < n ==> piece.digits[i] == rest[i];
  }
}
