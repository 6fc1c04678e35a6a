/** Statement text: bytes, names and numbers in it, and the builder it is written with. */
module Texts {
  import opened Words

  /** A literal of the source, one byte per character. */
  function Ascii(s: string): (t: Str)
    ensures |t| == |s|
  {
    seq(|s|, i requires 0 <= i < |s| => s[i] as int % 256)
  }

  predicate IsDigit(b: Byte) {
    0x30 <= b <= 0x39
  }

  predicate IsLetter(b: Byte) {
    b == 0x5f || 0x41 <= b <= 0x5a || 0x61 <= b <= 0x7a
  }

  predicate IsNameByte(b: Byte) {
    IsLetter(b) || IsDigit(b)
  }

  predicate AllDigits(t: Str) {
    forall i :: 0 <= i < |t| ==> IsDigit(t[i])
  }

  predicate AllNameBytes(t: Str) {
    forall i :: 0 <= i < |t| ==> IsNameByte(t[i])
  }

  /** A letter or underscore, then letters, digits and underscores. */
  predicate PlainName(name: Str) {
    name != [] && IsLetter(name[0]) && AllNameBytes(name)
  }

  /** checkName's scan. */
  method IsPlain(name: Str) returns (ok: bool)
    ensures ok <==> PlainName(name)
    ensures ok <==> name != [] && forall i :: 0 <= i < |name| ==>
              var c := name[i];
              || c == '_' as int || 'A' as int <= c <= 'Z' as int || 'a' as int <= c <= 'z' as int
              || (i > 0 && '0' as int <= c <= '9' as int)
  {
    if name == [] { return false; }
    for i := 0 to |name|
      invariant AllNameBytes(name[..i]) && (i > 0 ==> IsLetter(name[0]))
    {
      var c := name[i];
      if c == 0x5f || 0x41 <= c <= 0x5a || 0x61 <= c <= 0x7a {
      } else if i > 0 && 0x30 <= c <= 0x39 {
      } else {
        assert !IsNameByte(name[i]) || i == 0;
        return false;
      }
      assert name[..i + 1] == name[..i] + [c];
    }
    assert name[..|name|] == name;
    ok := true;
  }

  // ---------- decimal numbers ----------

  /** strconv.Itoa and %d, of a number that is not negative. */
  function Itoa(n: nat): (t: Str)
    ensures t != [] && AllDigits(t)
  {
    if n < 10 then [0x30 + n] else Itoa(n / 10) + [0x30 + n % 10]
  }

  function NumberOf(t: Str): nat
    requires AllDigits(t)
  {
    if t == [] then 0 else NumberOf(t[..|t| - 1]) * 10 + (t[|t| - 1] - 0x30)
  }

  lemma {:induction false} NumberReads(n: nat)
    ensures NumberOf(Itoa(n)) == n
    ensures AllNameBytes(Itoa(n))
  {
    var t := Itoa(n);
    if n < 10 {
      assert t[..0] == [];
    } else {
      NumberReads(n / 10);
      assert t[..|t| - 1] == Itoa(n / 10);
    }
  }

  // ---------- reading text ----------

  datatype Read<T> = Got(value: T, rest: Str) | Not {
    predicate IsFailure() {
      Not?
    }

    function PropagateFailure<U>(): Read<U>
      requires IsFailure()
    {
      Not
    }

    function Extract(): (T, Str)
      requires !IsFailure()
    {
      (value, rest)
    }
  }

  predicate Opens(t: Str, literal: string) {
    |literal| <= |t| && forall i :: 0 <= i < |literal| ==> t[i] == literal[i] as int % 256
  }

  /** What follows a literal. */
  function Past(t: Str, literal: string): (rest: Str)
    requires Opens(t, literal)
    ensures t == Ascii(literal) + rest && |t| == |literal| + |rest|
  {
    t[|literal|..]
  }

  lemma OpensWith(literal: string, rest: Str)
    ensures Opens(Ascii(literal) + rest, literal) && Past(Ascii(literal) + rest, literal) == rest
  {}

  /** Two texts that differ at one place are not the same text. */
  lemma Apart(a: string, rest: Str, b: string, i: nat)
    requires i < |a| && i < |b| && a[i] as int % 256 != b[i] as int % 256
    ensures !Opens(Ascii(a) + rest, b)
  {
    assert (Ascii(a) + rest)[i] == a[i] as int % 256;
    assert Ascii(b)[i] == b[i] as int % 256;
  }

  function Skip(t: Str, literal: string): (r: Read<bool>)
    ensures r.Got? ==> |t| == |literal| + |r.rest|
  {
    if Opens(t, literal) then Got(true, Past(t, literal)) else Not
  }

  lemma Skips(literal: string, rest: Str)
    ensures Skip(Ascii(literal) + rest, literal) == Got(true, rest)
  {
    OpensWith(literal, rest);
  }

  /** The longest run of name bytes a text begins with. */
  function Run(t: Str): (n: nat)
    ensures n <= |t| && AllNameBytes(t[..n]) && (n < |t| ==> !IsNameByte(t[n]))
  {
    if t == [] || !IsNameByte(t[0]) then 0 else
      var n := Run(t[1..]);
      assert t[..n + 1] == [t[0]] + t[1..][..n];
      n + 1
  }

  predicate Ended(rest: Str) {
    rest == [] || !IsNameByte(rest[0])
  }

  lemma RunReads(word: Str, rest: Str)
    requires AllNameBytes(word) && Ended(rest)
    ensures Run(word + rest) == |word| && (word + rest)[..|word|] == word && (word + rest)[|word|..] == rest
  {
    var t := word + rest;
    assert forall i :: 0 <= i < |word| ==> t[i] == word[i];
    assert rest != [] ==> t[|word|] == rest[0];
  }

  function ReadName(t: Str): (r: Read<Str>)
    ensures r.Got? ==> |r.rest| < |t|
  {
    var n := Run(t);
    if PlainName(t[..n]) then Got(t[..n], t[n..]) else Not
  }

  function ReadNumber(t: Str): (r: Read<nat>)
    ensures r.Got? ==> |r.rest| < |t|
  {
    var n := Run(t);
    if n > 0 && AllDigits(t[..n]) then Got(NumberOf(t[..n]), t[n..]) else Not
  }

  lemma NameReads(name: Str, rest: Str)
    requires PlainName(name) && Ended(rest)
    ensures ReadName(name + rest) == Got(name, rest)
  {
    RunReads(name, rest);
  }

  lemma ItoaReads(n: nat, rest: Str)
    requires Ended(rest)
    ensures ReadNumber(Itoa(n) + rest) == Got(n, rest)
  {
    NumberReads(n);
    RunReads(Itoa(n), rest);
  }

  // ---------- writing text ----------

  /** strings.Builder. */
  class Builder {
    var text: Str

    constructor ()
      ensures text == []
    {
      text := [];
    }

    method Put(t: Str)
      modifies this
      ensures text == old(text) + t
    {
      text := text + t;
    }

    method Say(literal: string)
      modifies this
      ensures text == old(text) + Ascii(literal)
    {
      text := text + Ascii(literal);
    }
  }
}
