/** Byte strings, machine integers and the big-endian layouts of bytes.go. */
module Words {
  type Byte = b: int | 0 <= b < 256
  type UInt32 = n: int | 0 <= n < 0x1_0000_0000
  type UInt64 = n: int | 0 <= n < 0x1_0000_0000_0000_0000
  type Int64 = n: int | -0x8000_0000_0000_0000 <= n < 0x8000_0000_0000_0000

  /** A Go string or byte slice: both are bytes, and only some of them are valid text. */
  type Str = seq<Byte>

  datatype Option<+T> = Nothing | Some(value: T)

  const TWO_32 := 0x1_0000_0000
  const TWO_63 := 0x8000_0000_0000_0000
  const TWO_64 := 0x1_0000_0000_0000_0000
  const TWO_127 := 0x8000_0000_0000_0000_0000_0000_0000_0000
  const TWO_128 := 0x1_0000_0000_0000_0000_0000_0000_0000_0000

  const NANOS_PER_SECOND := 1_000_000_000

  lemma Assoc(a: Str, b: Str, c: Str)
    ensures a + b + c == a + (b + c)
  {}

  // ---------- big-endian digits ----------

  function Pow256(w: nat): (p: nat)
    ensures p > 0
  {
    if w == 0 then 1 else 256 * Pow256(w - 1)
  }

  /** The low w bytes of n, most significant first; higher bytes are dropped, as a Go conversion drops them. */
  function BigEndian(n: nat, w: nat): (s: Str)
    ensures |s| == w
  {
    if w == 0 then [] else BigEndian(n / 256, w - 1) + [n % 256]
  }

  function FromBigEndian(s: Str): nat {
    if s == [] then 0 else 256 * FromBigEndian(s[..|s| - 1]) + s[|s| - 1]
  }

  lemma Powers()
    ensures Pow256(4) == TWO_32 && Pow256(7) == 0x100_0000_0000_0000
    ensures Pow256(8) == TWO_64 && Pow256(16) == TWO_128 && Pow256(15) * 256 == TWO_128
  {
    assert Pow256(2) == 0x1_0000;
    assert Pow256(4) == TWO_32;
    assert Pow256(6) == 0x1_0000_0000_0000;
    assert Pow256(8) == TWO_64;
    assert Pow256(10) == 0x1_0000_0000_0000_0000_0000;
    assert Pow256(12) == 0x1_0000_0000_0000_0000_0000_0000;
    assert Pow256(14) == 0x1_0000_0000_0000_0000_0000_0000_0000;
    assert Pow256(16) == TWO_128;
  }

  lemma {:induction false} BigEndianReads(n: nat, w: nat)
    requires n < Pow256(w)
    ensures FromBigEndian(BigEndian(n, w)) == n
  {
    if w > 0 {
      BigEndianReads(n / 256, w - 1);
      assert BigEndian(n, w)[..w - 1] == BigEndian(n / 256, w - 1);
    }
  }

  lemma {:induction false} BigEndianWrites(s: Str)
    ensures FromBigEndian(s) < Pow256(|s|)
    ensures BigEndian(FromBigEndian(s), |s|) == s
  {
    if s != [] {
      BigEndianWrites(s[..|s| - 1]);
      assert s == s[..|s| - 1] + [s[|s| - 1]];
    }
  }

  /** The first byte is the most significant digit. */
  lemma {:induction false} FromBigEndianHead(b: Byte, s: Str)
    ensures FromBigEndian([b] + s) == b * Pow256(|s|) + FromBigEndian(s)
  {
    if s == [] {
      assert [b] + s == [b] && [b][..0] == [];
      assert FromBigEndian([b]) == 256 * FromBigEndian([]) + b;
    } else {
      var init := s[..|s| - 1];
      FromBigEndianHead(b, init);
      assert ([b] + s)[..|s|] == [b] + init;
      assert b * Pow256(|s|) == 256 * (b * Pow256(|s| - 1));
    }
  }

  // ---------- lexicographic order, Go's order on strings ----------

  predicate Less(a: Str, b: Str) {
    b != [] && (a == [] || a[0] < b[0] || (a[0] == b[0] && Less(a[1..], b[1..])))
  }

  lemma {:induction false} LessIsTotal(a: Str, b: Str)
    ensures (if a == b then 0 else 1) == (if Less(a, b) then 1 else 0) + (if Less(b, a) then 1 else 0)
  {
    if a != [] && b != [] {
      LessIsTotal(a[1..], b[1..]);
      assert a == [a[0]] + a[1..] && b == [b[0]] + b[1..];
    }
  }

  lemma {:induction false} LessIsTransitive(a: Str, b: Str, c: Str)
    requires Less(a, b) && Less(b, c)
    ensures Less(a, c)
  {
    if a != [] && a[0] == b[0] == c[0] {
      LessIsTransitive(a[1..], b[1..], c[1..]);
    }
  }

  /** A shared prefix does not decide; the tails do. */
  lemma {:induction false} LessAfterPrefix(p: Str, a: Str, b: Str)
    ensures Less(p + a, p + b) == Less(a, b)
  {
    if p == [] {
      assert p + a == a && p + b == b;
    } else {
      LessAfterPrefix(p[1..], a, b);
      assert (p + a)[1..] == p[1..] + a && (p + b)[1..] == p[1..] + b;
    }
  }

  /** Heads of one length decide unless they are equal. */
  lemma {:induction false} LessOnHeads(a: Str, b: Str, s: Str, t: Str)
    requires |a| == |b|
    ensures Less(a + s, b + t) == (Less(a, b) || (a == b && Less(s, t)))
  {
    if a == [] {
      assert a + s == s && b + t == t;
    } else {
      LessOnHeads(a[1..], b[1..], s, t);
      assert (a + s)[1..] == a[1..] + s && (b + t)[1..] == b[1..] + t;
      assert a == [a[0]] + a[1..] && b == [b[0]] + b[1..];
    }
  }

  lemma {:induction false} BigEndianOrder(m: nat, n: nat, w: nat)
    requires m < Pow256(w) && n < Pow256(w)
    ensures Less(BigEndian(m, w), BigEndian(n, w)) == (m < n)
  {
    if w > 0 {
      BigEndianOrder(m / 256, n / 256, w - 1);
      LessOnHeads(BigEndian(m / 256, w - 1), BigEndian(n / 256, w - 1), [m % 256], [n % 256]);
      if BigEndian(m / 256, w - 1) == BigEndian(n / 256, w - 1) {
        BigEndianReads(m / 256, w - 1);
        BigEndianReads(n / 256, w - 1);
      }
    }
  }

  // ---------- names in ascending order ----------

  predicate Ascending(names: seq<Str>) {
    forall i, j :: 0 <= i < j < |names| ==> Less(names[i], names[j])
  }

  ghost predicate IsGreatest(g: Str, names: set<Str>) {
    g in names && forall n :: n in names && n != g ==> Less(n, g)
  }

  lemma {:induction false} GreatestExists(names: set<Str>) returns (g: Str)
    requires names != {}
    ensures IsGreatest(g, names)
  {
    var x :| x in names;
    if names == {x} {
      g := x;
    } else {
      var h := GreatestExists(names - {x});
      LessIsTotal(x, h);
      g := if Less(h, x) then x else h;
      forall n | n in names && n != g ensures Less(n, g) {
        if n != x && n != h {
          assert n in names - {x};
          if Less(h, x) { LessIsTransitive(n, h, x); }
        }
      }
    }
  }

  ghost function Greatest(names: set<Str>): (g: Str)
    requires names != {}
    ensures IsGreatest(g, names)
  {
    assert exists g :: IsGreatest(g, names) by { var _ := GreatestExists(names); }
    var g :| IsGreatest(g, names);
    g
  }

  /** What sort.Strings leaves of a map's keys: all of them, ascending. */
  ghost function Sorted(names: set<Str>): (s: seq<Str>)
    ensures Ascending(s) && |s| == |names|
    ensures forall n :: n in s <==> n in names
  {
    if names == {} then [] else
      var g := Greatest(names);
      Sorted(names - {g}) + [g]
  }

  lemma LastIsGreatest(s: seq<Str>, names: set<Str>)
    requires s != [] && Ascending(s) && forall n :: n in s <==> n in names
    ensures names != {} && s[|s| - 1] == Greatest(names)
    ensures Ascending(s[..|s| - 1])
    ensures forall n :: n in s[..|s| - 1] <==> n in names - {Greatest(names)}
  {
    hide Less;
    assert s[0] in names;
    var g, last := Greatest(names), s[|s| - 1];
    assert g in s && last in names;
    var i :| 0 <= i < |s| && s[i] == g;
    if i < |s| - 1 { LessIsTotal(g, last); }
    var init := s[..|s| - 1];
    forall n ensures n in init <==> n in names - {g} {
      if n in init {
        var j :| 0 <= j < |s| - 1 && s[j] == n;
        LessIsTotal(n, g);
      }
      if n in names && n != g {
        assert n in s;
      }
    }
  }

  /** Ascending order leaves no choice: a list of the same names in that order is the same list. */
  lemma {:induction false} SortedIsUnique(s: seq<Str>, names: set<Str>)
    requires Ascending(s) && forall n :: n in s <==> n in names
    ensures s == Sorted(names)
    decreases |s|
  {
    hide Less, Ascending, Greatest;
    if s == [] {
      assert forall n :: n !in names;
    } else {
      LastIsGreatest(s, names);
      SortedIsUnique(s[..|s| - 1], names - {Greatest(names)});
      assert s == s[..|s| - 1] + [Greatest(names)];
    }
  }

  /** Gathers a map's keys, met in any order, and sorts them. */
  method SortNames(names: set<Str>) returns (sorted: seq<Str>)
    ensures sorted == Sorted(names)
  {
    sorted := [];
    var left := names;
    while left != {}
      invariant left <= names && Ascending(sorted)
      invariant forall n :: n in sorted <==> n in names - left
      decreases |left|
    {
      var name :| name in left;
      left := left - {name};
      var at := |sorted|;
      while at > 0 && Less(name, sorted[at - 1])
        invariant 0 <= at <= |sorted|
        invariant forall j :: at <= j < |sorted| ==> Less(name, sorted[j])
      {
        at := at - 1;
      }
      InsertKeepsOrder(sorted, at, name);
      sorted := sorted[..at] + [name] + sorted[at..];
    }
    SortedIsUnique(sorted, names);
  }

  lemma InsertKeepsOrder(s: seq<Str>, at: nat, name: Str)
    requires Ascending(s) && at <= |s| && name !in s
    requires at > 0 ==> !Less(name, s[at - 1])
    requires forall j :: at <= j < |s| ==> Less(name, s[j])
    ensures Ascending(s[..at] + [name] + s[at..])
    ensures forall n :: n in s[..at] + [name] + s[at..] <==> n in s || n == name
  {
    var t := s[..at] + [name] + s[at..];
    if at > 0 { LessIsTotal(name, s[at - 1]); }
    forall i | 0 <= i < at ensures Less(s[i], name) {
      if i < at - 1 { LessIsTransitive(s[i], s[at - 1], name); }
    }
    forall i, j | 0 <= i < j < |t| ensures Less(t[i], t[j]) {
      assert t[i] == if i < at then s[i] else if i == at then name else s[i - 1];
      assert t[j] == if j < at then s[j] else if j == at then name else s[j - 1];
    }
    forall n ensures n in t <==> n in s || n == name {
      if n in s {
        var k :| 0 <= k < |s| && s[k] == n;
        assert t[if k < at then k else k + 1] == n;
      }
      if n == name { assert t[at] == n; }
    }
  }
}
