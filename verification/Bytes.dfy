/** Bytes, C strings, 64-bit ids, and the fixed-width integer encodings shared by
    the store keys, the binary dump and the wire protocol. */
module Bytes {

  type Byte = x: int | 0 <= x < 256
  type Str = seq<Byte>

  const MIN_ID: int := -0x8000_0000_0000_0000
  const MAX_ID: int := 0x7fff_ffff_ffff_ffff
  const TWO_32: nat := 0x1_0000_0000
  const MAX_32: int := 0x7fff_ffff

  /** `NumID`, a 64-bit signed integer. */
  type NumID = x: int | MIN_ID <= x <= MAX_ID

  /** `FailureIdx`, the operation code and every list size: 32-bit signed integers. */
  type Int32 = x: int | -0x8000_0000 <= x <= MAX_32

  /** The bytes before the first `stop`, or all of them. */
  function UpTo(s: Str, stop: Byte): (p: Str)
    ensures p <= s && stop !in p
    ensures p == s || s[|p|] == stop
  {
    if s == [] || s[0] == stop then [] else [s[0]] + UpTo(s[1..], stop)
  }

  lemma {:induction false} UpToConcat(a: Str, b: Str, stop: Byte)
    requires stop !in a
    ensures UpTo(a + b, stop) == a + UpTo(b, stop)
  {
    if a == [] {
      assert a + b == b;
    } else {
      assert (a + b)[1..] == a[1..] + b;
      UpToConcat(a[1..], b, stop);
    }
  }

  /** What a C API sees of `s.c_str()`: the bytes before the first NUL. */
  function CStr(s: Str): (c: Str)
    ensures c <= s && 0 !in c
    ensures c == s || s[|c|] == 0
  {
    UpTo(s, 0)
  }

  lemma CStrIsIdentity(s: Str)
    ensures CStr(s) == s <==> 0 !in s
  {
  }

  function Pow256(n: nat): (p: nat)
    ensures p > 0
  {
    if n == 0 then 1 else 256 * Pow256(n - 1)
  }

  lemma SliceOfSlice<T>(s: seq<T>, p: nat, q: nat, i: nat, j: nat)
    requires i <= j <= q - p && p <= q <= |s|
    ensures s[p..q][i..j] == s[p + i..p + j]
  {
    forall k | 0 <= k < j - i ensures s[p..q][i..j][k] == s[p + i..p + j][k] {}
  }

  lemma Joined<T>(s: seq<T>, i: nat, j: nat)
    requires i <= j <= |s|
    ensures s[..i] + s[i..j] == s[..j] && s[..|s|] == s
  {
  }

  lemma JoinedOneMore<T>(s: seq<T>, i: nat, j: nat)
    requires i <= j < |s|
    ensures s[i..j] + [s[j]] == s[i..j + 1] && s[..i] + s[i..j + 1] == s[..j + 1]
  {
  }

  lemma ThreeParts<T>(a: seq<T>, b: seq<T>, c: seq<T>)
    ensures (a + b + c)[..|a|] == a
    ensures (a + b + c)[|a|..|a| + |b|] == b
    ensures (a + b + c)[|a| + |b|..] == c
  {
  }

  // ---- division by powers of 256 ----

  lemma DivUnique(v: int, d: nat, q: int)
    requires d > 0 && d * q <= v < d * q + d
    ensures v / d == q
  {
    var e := v / d - q;
    assert v == d * (v / d) + v % d;
    assert d * (v / d) == d * q + d * e;
    assert e >= 1 ==> d * e >= d;
    assert e <= -1 ==> d * e <= 0 - d;
  }

  /** Dividing by the base first. */
  lemma DivBy256(v: nat, d: nat)
    requires d > 0
    ensures v / 256 / d == v / (256 * d)
  {
    var x := v / 256;
    var q := x / d;
    assert x == d * q + x % d;
    assert (256 * d) * q == 256 * (d * q);
    DivUnique(v, 256 * d, q);
  }

  lemma DivBy10(v: nat, d: nat)
    requires d > 0
    ensures v / 10 / d == v / (10 * d)
  {
    var x := v / 10;
    var q := x / d;
    assert x == d * q + x % d;
    assert (10 * d) * q == 10 * (d * q);
    DivUnique(v, 10 * d, q);
  }

  /** Adding a multiple of the divisor. */
  lemma DivShift(v: int, m: int, d: nat)
    requires d > 0
    ensures (v + m * d) / d == v / d + m
  {
    var q := v / d;
    assert v == d * q + v % d;
    assert d * (q + m) == d * q + m * d;
    DivUnique(v + m * d, d, q + m);
  }

  lemma TimesLast(a: nat, b: nat)
    ensures 256 * (a * b) == a * (256 * b)
  {
  }

  lemma {:induction false} Pow256Split(n: nat, i: nat)
    requires i < n
    ensures Pow256(n) == (256 * Pow256(n - 1 - i)) * Pow256(i)
  {
    if i == 0 {
      assert Pow256(0) == 1;
    } else {
      Pow256Split(n - 1, i - 1);
      assert Pow256(n) == 256 * Pow256(n - 1) && Pow256(i) == 256 * Pow256(i - 1);
      TimesLast(256 * Pow256(n - 1 - i), Pow256(i - 1));
    }
  }

  // ---- little endian ----

  function ToLe(n: nat, v: nat): (b: seq<Byte>)
    ensures |b| == n
  {
    if n == 0 then [] else [v % 256] + ToLe(n - 1, v / 256)
  }

  function FromLe(b: seq<Byte>): (v: nat)
    ensures v < Pow256(|b|)
  {
    if b == [] then 0 else b[0] + 256 * FromLe(b[1..])
  }

  lemma {:induction false} FromToLe(n: nat, v: nat)
    requires v < Pow256(n)
    ensures FromLe(ToLe(n, v)) == v
  {
    if n > 0 {
      FromToLe(n - 1, v / 256);
      assert ToLe(n, v)[1..] == ToLe(n - 1, v / 256);
    }
  }

  /** The i-th byte is the i-th digit to base 256. */
  lemma {:induction false} ToLeAt(n: nat, v: nat, i: nat)
    requires i < n
    ensures ToLe(n, v)[i] == (v / Pow256(i)) % 256
  {
    if i > 0 {
      ToLeAt(n - 1, v / 256, i - 1);
      DivBy256(v, Pow256(i - 1));
    }
  }

  lemma {:induction false} ToFromLe(b: seq<Byte>)
    ensures ToLe(|b|, FromLe(b)) == b
  {
    if b != [] {
      ToFromLe(b[1..]);
      assert FromLe(b) / 256 == FromLe(b[1..]);
    }
  }

  // ---- big endian ----

  function ToBe(n: nat, v: nat): (b: seq<Byte>)
    ensures |b| == n
  {
    if n == 0 then [] else ToBe(n - 1, v / 256) + [v % 256]
  }

  function FromBe(b: seq<Byte>): (v: nat)
    ensures v < Pow256(|b|)
  {
    if b == [] then 0 else 256 * FromBe(b[..|b| - 1]) + b[|b| - 1]
  }

  lemma {:induction false} FromToBe(n: nat, v: nat)
    requires v < Pow256(n)
    ensures FromBe(ToBe(n, v)) == v
  {
    if n > 0 {
      FromToBe(n - 1, v / 256);
      assert ToBe(n, v)[..n - 1] == ToBe(n - 1, v / 256);
    }
  }

  /** The i-th byte from the end is the i-th digit to base 256. */
  lemma {:induction false} ToBeAt(n: nat, v: nat, i: nat)
    requires i < n
    ensures ToBe(n, v)[n - 1 - i] == (v / Pow256(i)) % 256
  {
    if i > 0 {
      ToBeAt(n - 1, v / 256, i - 1);
      DivBy256(v, Pow256(i - 1));
    }
  }

  /** Big-endian numbers compare like their bytes, the first difference deciding. */
  ghost predicate LexLess(x: seq<Byte>, y: seq<Byte>) {
    exists i :: 0 <= i < |x| && i < |y| && x[..i] == y[..i] && x[i] < y[i]
  }

  lemma {:induction false} FromBeOrder(x: seq<Byte>, y: seq<Byte>)
    requires |x| == |y|
    ensures FromBe(x) < FromBe(y) <==> LexLess(x, y)
    ensures FromBe(x) == FromBe(y) <==> x == y
  {
    hide LexLess;
    if x == [] {
      assert !LexLess(x, y) by { NothingLess(); }
    } else {
      var n := |x| - 1;
      var (x0, y0) := (x[..n], y[..n]);
      FromBeOrder(x0, y0);
      assert x == x0 + [x[n]] && y == y0 + [y[n]];
      LexLessSnoc(x0, y0, x[n], y[n]);
    }
  }

  lemma NothingLess()
    ensures !LexLess([], [])
  {
  }

  lemma LexLessSnoc(x: seq<Byte>, y: seq<Byte>, a: Byte, b: Byte)
    requires |x| == |y|
    ensures LexLess(x + [a], y + [b]) <==> LexLess(x, y) || (x == y && a < b)
  {
    var (xa, yb) := (x + [a], y + [b]);
    if i :| 0 <= i < |xa| && i < |yb| && xa[..i] == yb[..i] && xa[i] < yb[i] {
      if i < |x| {
        assert x[..i] == xa[..i] && y[..i] == yb[..i] && x[i] == xa[i] && y[i] == yb[i];
      } else {
        assert x == xa[..i] && y == yb[..i];
      }
    }
    if i :| 0 <= i < |x| && i < |y| && x[..i] == y[..i] && x[i] < y[i] {
      assert xa[..i] == x[..i] && yb[..i] == y[..i] && xa[i] == x[i] && yb[i] == y[i];
    }
    if x == y && a < b {
      assert xa[..|x|] == x && yb[..|x|] == y && xa[|x|] == a && yb[|x|] == b;
    }
  }

  lemma {:induction false} ToFromBe(b: seq<Byte>)
    ensures ToBe(|b|, FromBe(b)) == b
  {
    if b != [] {
      ToFromBe(b[..|b| - 1]);
      assert FromBe(b) / 256 == FromBe(b[..|b| - 1]);
    }
  }

  // ---- two's complement on n bytes ----

  predicate FitsSigned(n: nat, v: int) {
    -(Pow256(n) as int) <= 2 * v < Pow256(n)
  }

  function Unsigned(n: nat, v: int): (u: nat)
    requires FitsSigned(n, v)
    ensures u < Pow256(n)
  {
    if v < 0 then v + Pow256(n) else v
  }

  function Signed(n: nat, u: nat): (v: int)
    requires u < Pow256(n)
    ensures FitsSigned(n, v) && Unsigned(n, v) == u
  {
    if 2 * u < Pow256(n) then u else u - Pow256(n)
  }

  lemma SignedUnsigned(n: nat, v: int)
    requires FitsSigned(n, v)
    ensures Signed(n, Unsigned(n, v)) == v
  {
  }

  /** The bytes of a number in two's complement are its digits to base 256, rounding down. */
  lemma UnsignedDigit(n: nat, v: int, i: nat)
    requires FitsSigned(n, v) && i < n
    ensures (Unsigned(n, v) / Pow256(i)) % 256 == (v / Pow256(i)) % 256
  {
    hide Pow256;
    if v < 0 {
      Pow256Split(n, i);
      DigitShift(v, Pow256(n - 1 - i), Pow256(i));
    }
  }

  lemma DigitShift(v: int, m: nat, d: nat)
    requires d > 0
    ensures ((v + (256 * m) * d) / d) % 256 == (v / d) % 256
  {
    DivShift(v, 256 * m, d);
    ModShift(v / d, m);
  }

  lemma ModShift(x: int, m: nat)
    ensures (x + 256 * m) % 256 == x % 256
  {
  }

  // ---- the 8 bytes of an id in memory (little-endian machine) ----

  lemma IdFits(id: NumID)
    ensures FitsSigned(8, id)
  {
    assert Pow256(8) == 0x1_0000_0000_0000_0000;
  }

  function IdBytes(id: NumID): (b: seq<Byte>)
    ensures |b| == 8
  {
    IdFits(id);
    ToLe(8, Unsigned(8, id))
  }

  function IdOf(b: seq<Byte>): (id: NumID)
    requires |b| == 8
    ensures IdBytes(id) == b
  {
    assert Pow256(8) == 0x1_0000_0000_0000_0000;
    ToFromLe(b);
    Signed(8, FromLe(b))
  }

  lemma IdRoundTrip(id: NumID)
    ensures IdOf(IdBytes(id)) == id
  {
    IdFits(id);
    FromToLe(8, Unsigned(8, id));
    SignedUnsigned(8, id);
  }

  /** The bytes of an id, the least significant one first. */
  lemma IdBytesAt(id: NumID)
    ensures forall i | 0 <= i < 8 :: IdBytes(id)[i] == (id / Pow256(i)) % 256
  {
    hide ToLe, Pow256, Unsigned;
    IdFits(id);
    forall i | 0 <= i < 8 ensures IdBytes(id)[i] == (id / Pow256(i)) % 256 {
      ToLeAt(8, Unsigned(8, id), i);
      UnsignedDigit(8, id, i);
    }
  }
}
