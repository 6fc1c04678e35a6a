/** Quoted text: as an event writes it (httpseries.go) and as a key is read back (cache_statements.go). */
module Quoting {
  import opened Words
  import opened Texts
  import Utf8

  const QUOTE: Byte := 0x27
  const BACKSLASH: Byte := 0x5c

  /** What a range over a string yields, and WriteRune writes, for a byte that begins no rune. */
  const REPLACEMENT: Str := [0xEF, 0xBF, 0xBD]

  function FirstRune(t: Str): (r: Str)
    requires t != []
    ensures r != []
  {
    if Utf8.RuneWidth(t) == 0 then REPLACEMENT else t[..Utf8.RuneWidth(t)]
  }

  function AfterRune(t: Str): (rest: Str)
    requires t != []
    ensures |rest| < |t|
  {
    if Utf8.RuneWidth(t) == 0 then t[1..] else t[Utf8.RuneWidth(t)..]
  }

  /** A text with each byte that begins no rune replaced. */
  function Repaired(t: Str): Str
    decreases |t|
  {
    if t == [] then [] else FirstRune(t) + Repaired(AfterRune(t))
  }

  predicate NeedsEscape(b: Byte) {
    b == QUOTE || b == BACKSLASH
  }

  function Escaped(t: Str): Str
    decreases |t|
  {
    if t == [] then [] else
      (if NeedsEscape(t[0]) then [BACKSLASH] else []) + FirstRune(t) + Escaped(AfterRune(t))
  }

  /** eventQuoted. */
  function Quoted(t: Str): Str {
    [QUOTE] + Escaped(t) + [QUOTE]
  }

  function Unescaped(t: Str, escaped: bool): Str
    decreases |t|
  {
    if t == [] then []
    else if escaped || t[0] != BACKSLASH then FirstRune(t) + Unescaped(AfterRune(t), false)
    else Unescaped(AfterRune(t), true)
  }

  /** unquoted: anything that is not quoted is returned as it came. */
  function Unquoted(spelled: Str): Str {
    if |spelled| < 2 || spelled[0] != QUOTE || spelled[|spelled| - 1] != QUOTE then spelled
    else Unescaped(spelled[1..|spelled| - 1], false)
  }

  // ---------- runes ----------

  /** A rune is one whatever follows it. */
  lemma RuneStands(t: Str, rest: Str)
    requires t != []
    ensures var r := FirstRune(t);
            && Utf8.RuneWidth(r + rest) == |r| && FirstRune(r + rest) == r && AfterRune(r + rest) == rest
  {
    var r := FirstRune(t);
    var s := r + rest;
    assert forall i :: 0 <= i < |r| ==> s[i] == r[i];
    assert Utf8.RuneWidth(t) > 0 ==> forall i :: 0 <= i < |r| ==> s[i] == t[i];
    assert s[..|r|] == r && s[|r|..] == rest;
  }

  /** A rune that is not one ASCII byte has none in it. */
  lemma RuneBytes(t: Str)
    requires t != []
    ensures FirstRune(t) == [t[0]] || forall i :: 0 <= i < |FirstRune(t)| ==> FirstRune(t)[i] >= 0x80
    ensures t[0] < 0x80 ==> FirstRune(t) == [t[0]] && AfterRune(t) == t[1..]
    ensures t[0] >= 0x80 ==> forall i :: 0 <= i < |FirstRune(t)| ==> FirstRune(t)[i] >= 0x80
  {}

  lemma {:induction false} RepairedIsValid(t: Str)
    ensures Utf8.Valid(Repaired(t))
    decreases |t|
  {
    hide Utf8.RuneWidth, FirstRune, AfterRune;
    if t != [] {
      var r, rest := FirstRune(t), Repaired(AfterRune(t));
      RuneStands(t, rest);
      RepairedIsValid(AfterRune(t));
      assert (r + rest)[|r|..] == rest;
    }
  }

  /** Repairing leaves a text as it is exactly when there is nothing to repair. */
  lemma {:induction false} RepairedIsSame(t: Str)
    ensures Repaired(t) == t <==> Utf8.Valid(t)
  {
    hide Repaired, Utf8.Valid;
    RepairedIsValid(t);
    if Utf8.Valid(t) { ValidStays(t); }
  }

  lemma {:induction false} ValidStays(t: Str)
    requires Utf8.Valid(t)
    ensures Repaired(t) == t
    decreases |t|
  {
    hide Utf8.RuneWidth;
    if t != [] {
      ValidStays(AfterRune(t));
      assert t == t[..Utf8.RuneWidth(t)] + t[Utf8.RuneWidth(t)..];
    }
  }

  // ---------- the two are inverse ----------

  lemma OneRuneBack(r: Str, rest: Str, escaped: bool)
    requires r != [] && (escaped || r[0] != BACKSLASH) && FirstRune(r + rest) == r && AfterRune(r + rest) == rest
    ensures Unescaped(r + rest, escaped) == r + Unescaped(rest, false)
  {
    hide FirstRune, AfterRune;
    assert (r + rest)[0] == r[0];
  }

  lemma BackslashBack(rest: Str)
    ensures Unescaped([BACKSLASH] + rest, false) == Unescaped(rest, true)
  {
    hide Utf8.RuneWidth;
    var s := [BACKSLASH] + rest;
    RuneBytes(s);
    assert s[1..] == rest;
  }

  lemma {:induction false} UnescapedInverts(t: Str)
    ensures Unescaped(Escaped(t), false) == Repaired(t)
    decreases |t|
  {
    hide Utf8.RuneWidth, FirstRune, AfterRune, Unescaped;
    if t == [] {
      NothingUnescaped();
    } else {
      var r, rest := FirstRune(t), Escaped(AfterRune(t));
      UnescapedInverts(AfterRune(t));
      RuneBytes(t);
      RuneStands(t, rest);
      if NeedsEscape(t[0]) {
        assert Escaped(t) == [BACKSLASH] + (r + rest);
        BackslashBack(r + rest);
        OneRuneBack(r, rest, true);
      } else {
        assert Escaped(t) == r + rest;
        OneRuneBack(r, rest, false);
      }
    }
  }

  lemma NothingUnescaped()
    ensures Unescaped([], false) == []
  {}

  /** Reading a quoted text back gives the text with ill-formed bytes replaced: itself exactly when it is UTF-8. */
  lemma UnquotedInverts(t: Str)
    ensures Unquoted(Quoted(t)) == Repaired(t)
    ensures Unquoted(Quoted(t)) == t <==> Utf8.Valid(t)
  {
    hide Unescaped, Escaped, Repaired, Utf8.Valid;
    var s := Quoted(t);
    assert s[1..|s| - 1] == Escaped(t);
    UnescapedInverts(t);
    RepairedIsSame(t);
  }

  // ---------- a reader of quoted text ----------

  /** Up to the first quote that no backslash stands before. */
  function ReadBody(t: Str): (r: Read<Str>)
    ensures r.Got? ==> |r.rest| < |t|
    decreases |t|
  {
    if t == [] then Not
    else if t[0] == QUOTE then Got([], t[1..])
    else if t[0] == BACKSLASH then
      if |t| < 2 then Not else
        var (more, rest) :- ReadBody(t[2..]);
        Got([t[1]] + more, rest)
    else
      var (more, rest) :- ReadBody(t[1..]);
      Got([t[0]] + more, rest)
  }

  function ReadQuoted(t: Str): (r: Read<Str>)
    ensures r.Got? ==> |r.rest| < |t|
  {
    if t != [] && t[0] == QUOTE then ReadBody(t[1..]) else Not
  }

  lemma {:induction false} PlainBytesRead(r: Str, t: Str)
    requires forall i :: 0 <= i < |r| ==> !NeedsEscape(r[i])
    requires ReadBody(t).Got?
    ensures ReadBody(r + t) == Got(r + ReadBody(t).value, ReadBody(t).rest)
    decreases |r|
  {
    if r == [] {
      assert r + t == t && r + ReadBody(t).value == ReadBody(t).value;
    } else {
      assert (r + t)[0] == r[0] && (r + t)[1..] == r[1..] + t;
      PlainBytesRead(r[1..], t);
      assert [r[0]] + (r[1..] + ReadBody(t).value) == r + ReadBody(t).value;
    }
  }

  lemma {:induction false} BodyReads(t: Str, rest: Str)
    ensures ReadBody(Escaped(t) + [QUOTE] + rest) == Got(Repaired(t), rest)
    decreases |t|
  {
    hide Utf8.RuneWidth, FirstRune, AfterRune, Escaped, ReadBody, NeedsEscape;
    if t == [] {
      NothingEscaped();
      EndReads(rest);
      assert Escaped(t) + [QUOTE] + rest == [QUOTE] + rest;
    } else {
      BodyReads(AfterRune(t), rest);
      RuneReads(t, Escaped(AfterRune(t)) + [QUOTE] + rest);
      EscapedOnce(t);
      var slash := if NeedsEscape(t[0]) then [BACKSLASH] else [];
      Assoc(slash + FirstRune(t), Escaped(AfterRune(t)), [QUOTE]);
      Assoc(slash + FirstRune(t), Escaped(AfterRune(t)) + [QUOTE], rest);
    }
  }

  lemma EndReads(rest: Str)
    ensures ReadBody([QUOTE] + rest) == Got([], rest)
  {
    assert ([QUOTE] + rest)[1..] == rest;
  }

  /** One rune as it is written, escaped if it must be, is read as that rune. */
  lemma RuneReads(t: Str, tail: Str)
    requires t != [] && ReadBody(tail).Got?
    ensures ReadBody((if NeedsEscape(t[0]) then [BACKSLASH] else []) + FirstRune(t) + tail)
         == Got(FirstRune(t) + ReadBody(tail).value, ReadBody(tail).rest)
  {
    hide FirstRune, AfterRune, ReadBody;
    RuneBytes(t);
    if NeedsEscape(t[0]) {
      EscapeReads(t[0], tail);
      assert [BACKSLASH] + [t[0]] + tail == [BACKSLASH, t[0]] + tail;
    } else {
      PlainBytesRead(FirstRune(t), tail);
      assert [] + FirstRune(t) + tail == FirstRune(t) + tail;
    }
  }

  lemma EscapeReads(b: Byte, tail: Str)
    requires ReadBody(tail).Got?
    ensures ReadBody([BACKSLASH, b] + tail) == Got([b] + ReadBody(tail).value, ReadBody(tail).rest)
  {
    assert ([BACKSLASH, b] + tail)[2..] == tail;
  }

  /** The reader finds where the quoted text ends, and reads what unquoted reads. */
  lemma QuotedReads(t: Str, rest: Str)
    ensures ReadQuoted(Quoted(t) + rest) == Got(Repaired(t), rest)
    ensures ReadQuoted(Quoted(t) + rest) == Got(Unquoted(Quoted(t)), rest)
  {
    hide Escaped, Repaired, ReadBody, Unquoted, Utf8.Valid;
    var s := Quoted(t) + rest;
    assert s[0] == QUOTE && s[1..] == Escaped(t) + [QUOTE] + rest;
    BodyReads(t, rest);
    UnquotedInverts(t);
  }

  // ---------- the loops ----------

  method WriteQuoted(text: Str, out: Builder)
    modifies out
    ensures out.text == old(out.text) + Quoted(text)
  {
    hide Utf8.RuneWidth, FirstRune, Escaped;
    out.Put([QUOTE]);
    ghost var start := out.text;
    var rest := text;
    assert start + Escaped(text) == old(out.text) + ([QUOTE] + Escaped(text));
    while rest != []
      invariant out.text + Escaped(rest) == start + Escaped(text)
      decreases |rest|
    {
      OneRune(out.text, rest);
      ghost var t := out.text;
      if rest[0] == BACKSLASH || rest[0] == QUOTE { out.Put([BACKSLASH]); }
      assert out.text == t + if NeedsEscape(rest[0]) then [BACKSLASH] else [];
      out.Put(FirstRune(rest));
      rest := AfterRune(rest);
    }
    NothingEscaped();
    assert out.text == start + Escaped(text);
    out.Put([QUOTE]);
  }

  lemma OneRune(t: Str, rest: Str)
    requires rest != []
    ensures t + Escaped(rest)
         == t + (if NeedsEscape(rest[0]) then [BACKSLASH] else []) + FirstRune(rest) + Escaped(AfterRune(rest))
  {
    hide FirstRune, AfterRune, Escaped, NeedsEscape;
    var slash := if NeedsEscape(rest[0]) then [BACKSLASH] else [];
    calc {
      t + Escaped(rest);
    ==  { EscapedOnce(rest); }
      t + (slash + FirstRune(rest) + Escaped(AfterRune(rest)));
    ==  { Assoc(t, slash + FirstRune(rest), Escaped(AfterRune(rest))); }
      t + (slash + FirstRune(rest)) + Escaped(AfterRune(rest));
    ==  { Assoc(t, slash, FirstRune(rest)); }
      t + slash + FirstRune(rest) + Escaped(AfterRune(rest));
    }
  }

  lemma EscapedOnce(rest: Str)
    requires rest != []
    ensures Escaped(rest)
         == (if NeedsEscape(rest[0]) then [BACKSLASH] else []) + FirstRune(rest) + Escaped(AfterRune(rest))
  {
    hide FirstRune, AfterRune;
  }

  lemma NothingEscaped()
    ensures Escaped([]) == []
  {}

  method ReadKey(spelled: Str) returns (key: Str)
    ensures key == Unquoted(spelled)
  {
    hide Utf8.RuneWidth, FirstRune, Unescaped;
    if |spelled| < 2 || spelled[0] != QUOTE || spelled[|spelled| - 1] != QUOTE { return spelled; }
    var out := new Builder();
    var escaped := false;
    var rest := spelled[1..|spelled| - 1];
    while rest != []
      invariant out.text + Unescaped(rest, escaped) == Unquoted(spelled)
      decreases |rest|
    {
      OneStep(out.text, rest, escaped);
      if escaped {
        out.Put(FirstRune(rest));
        escaped := false;
      } else if rest[0] == BACKSLASH {
        escaped := true;
      } else {
        out.Put(FirstRune(rest));
      }
      rest := AfterRune(rest);
    }
    NothingLeft(escaped);
    assert out.text + [] == out.text;
    key := out.text;
  }

  lemma OneStep(t: Str, rest: Str, escaped: bool)
    requires rest != []
    ensures t + Unescaped(rest, escaped)
         == if escaped || rest[0] != BACKSLASH then t + FirstRune(rest) + Unescaped(AfterRune(rest), false)
            else t + Unescaped(AfterRune(rest), true)
  {
    hide FirstRune, AfterRune;
    Assoc(t, FirstRune(rest), Unescaped(AfterRune(rest), false));
  }

  lemma NothingLeft(escaped: bool)
    ensures Unescaped([], escaped) == []
  {}
}
