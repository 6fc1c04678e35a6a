/** UUIDs as text: hyphenated hex (httpseries.go), read with or without hyphens (jsonscalar.go). */
module Uuids {
  import opened Words
  import opened Values

  const HYPHEN: Byte := 0x2d

  function HexDigit(n: nat): Byte
    requires n < 16
  {
    if n < 10 then 0x30 + n else 0x61 + n - 10
  }

  /** hex.EncodeToString. */
  function Hex(bytes: Str): (t: Str)
    ensures |t| == 2 * |bytes|
  {
    if bytes == [] then [] else [HexDigit(bytes[0] / 16), HexDigit(bytes[0] % 16)] + Hex(bytes[1..])
  }

  function UuidText(u: Sixteen): Str {
    var h := Hex(u);
    h[0..8] + [HYPHEN] + h[8..12] + [HYPHEN] + h[12..16] + [HYPHEN] + h[16..20] + [HYPHEN] + h[20..]
  }

  function HexValue(b: Byte): (n: Option<nat>)
    ensures n.Some? ==> n.value < 16
  {
    if 0x30 <= b <= 0x39 then Some(b - 0x30)
    else if 0x61 <= b <= 0x66 then Some(b - 0x61 + 10)
    else if 0x41 <= b <= 0x46 then Some(b - 0x41 + 10)
    else Nothing
  }

  /** hex.DecodeString: either case, and no odd digit. */
  function Unhex(t: Str): Option<Str>
    decreases |t|
  {
    if t == [] then Some([])
    else if |t| == 1 || HexValue(t[0]).Nothing? || HexValue(t[1]).Nothing? then Nothing
    else
      match Unhex(t[2..])
      case Nothing => Nothing
      case Some(rest) => Some([HexValue(t[0]).value * 16 + HexValue(t[1]).value] + rest)
  }

  function NoHyphens(t: Str): Str {
    if t == [] then [] else (if t[0] == HYPHEN then [] else [t[0]]) + NoHyphens(t[1..])
  }

  /** jsonUUIDBytes. */
  function ReadUuid(source: Str): Option<Sixteen> {
    match Unhex(NoHyphens(source))
    case Nothing => Nothing
    case Some(raw) => if |raw| == 16 then Some(raw) else Nothing
  }

  lemma {:induction false} HexReads(bytes: Str)
    ensures Unhex(Hex(bytes)) == Some(bytes) && HYPHEN !in Hex(bytes)
  {
    if bytes != [] {
      HexReads(bytes[1..]);
      assert Hex(bytes)[2..] == Hex(bytes[1..]);
      assert bytes == [bytes[0]] + bytes[1..];
    }
  }

  lemma {:induction false} NoHyphensJoin(a: Str, b: Str)
    ensures NoHyphens(a + b) == NoHyphens(a) + NoHyphens(b)
    decreases |a|
  {
    if a == [] {
      assert a + b == b;
    } else {
      assert (a + b)[1..] == a[1..] + b;
      NoHyphensJoin(a[1..], b);
    }
  }

  lemma {:induction false} NothingToDrop(a: Str)
    requires HYPHEN !in a
    ensures NoHyphens(a) == a
    decreases |a|
  {
    if a != [] { NothingToDrop(a[1..]); }
  }

  lemma OneHyphenLess(a: Str, b: Str)
    requires HYPHEN !in b
    ensures NoHyphens(a + [HYPHEN] + b) == NoHyphens(a) + b
  {
    hide NoHyphens;
    NoHyphensJoin(a + [HYPHEN], b);
    NoHyphensJoin(a, [HYPHEN]);
    NothingToDrop(b);
    AHyphenGoes();
    assert NoHyphens(a) + [] == NoHyphens(a);
  }

  lemma AHyphenGoes()
    ensures NoHyphens([HYPHEN]) == []
  {}

  lemma UuidReads(u: Sixteen)
    ensures ReadUuid(UuidText(u)) == Some(u)
  {
    hide Hex, NoHyphens, Unhex;
    var h := Hex(u);
    HexReads(u);
    var a := h[0..8] + [HYPHEN] + h[8..12];
    NothingToDrop(h[0..8]);
    OneHyphenLess(h[0..8], h[8..12]);
    OneHyphenLess(a, h[12..16]);
    OneHyphenLess(a + [HYPHEN] + h[12..16], h[16..20]);
    OneHyphenLess(a + [HYPHEN] + h[12..16] + [HYPHEN] + h[16..20], h[20..]);
    assert h == h[0..8] + h[8..12] + h[12..16] + h[16..20] + h[20..];
  }
}
