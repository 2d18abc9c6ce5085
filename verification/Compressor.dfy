/** The compact encoding of numbers, amounts, scripts and outputs. */
module Compressor {
  import opened Common
  import opened CoinsSpec

  const TWO32: nat := 0x1_0000_0000
  const TWO64: nat := 0x1_0000_0000_0000_0000

  /** What is read from the front of a stream, and what then follows; or the stream has ended too early. */
  datatype Read<T> = Got(value: T, rest: Bytes) | Short

  // ---------- Numbers of variable length ----------

  /** All digits but the last carry the high bit, and stand for one more than they say. */
  function Leading(n: nat): Bytes {
    if n <= 0x7f then [n + 0x80] else Leading(n / 128 - 1) + [n % 128 + 0x80]
  }

  function VarInt(n: nat): Bytes {
    if n <= 0x7f then [n] else Leading(n / 128 - 1) + [n % 128]
  }

  function Wrap(n: nat, size: nat): nat
    requires size > 0
  {
    if n < size then n else n % size
  }

  /** Reads a number into a type of `size` values, of which `n` has been read already. */
  function ReadVarInt(n: nat, s: Bytes, size: nat): Read<nat>
    requires size > 0
    decreases |s|
  {
    if s == [] then Short else
      var m := Wrap(n * 128 + s[0] % 128, size);
      if s[0] >= 0x80 then ReadVarInt(Wrap(m + 1, size), s[1..], size) else Got(m, s[1..])
  }

  method WriteVarInt(n: nat) returns (s: Bytes)
    ensures s == VarInt(n)
  {
    var tmp: Bytes, k := [], n;
    while true
      invariant VarInt(n) == if tmp == [] then VarInt(k) else Leading(k) + tmp
      invariant tmp == [] ==> k == n
      decreases k
    {
      tmp := [k % 128 + if tmp == [] then 0 else 0x80] + tmp;
      if k <= 0x7f {
        break;
      }
      k := k / 128 - 1;
    }
    s := tmp;
  }

  lemma ReadDigit(n: nat, c: Byte, s: Bytes, size: nat)
    requires n * 128 + c % 128 < size
    ensures ReadVarInt(n, [c] + s, size) ==
            if c >= 0x80 then ReadVarInt(Wrap(n * 128 + c % 128 + 1, size), s, size) else Got(n * 128 + c % 128, s)
  {
    assert ([c] + s)[1..] == s;
  }

  lemma {:induction false} LeadingReads(n: nat, s: Bytes, size: nat)
    requires n + 1 < size
    ensures ReadVarInt(0, Leading(n) + s, size) == ReadVarInt(n + 1, s, size)
    decreases n
  {
    hide ReadVarInt;
    if n <= 0x7f {
      ReadDigit(0, n + 0x80, s, size);
    } else {
      var c: Byte := n % 128 + 0x80;
      assert Leading(n) + s == Leading(n / 128 - 1) + ([c] + s);
      LeadingReads(n / 128 - 1, [c] + s, size);
      ReadDigit(n / 128, c, s, size);
    }
  }

  /** A number that fits is read back, and nothing after it is touched. */
  lemma VarIntRoundTrip(n: nat, s: Bytes, size: nat)
    requires n < size
    ensures ReadVarInt(0, VarInt(n) + s, size) == Got(n, s)
  {
    hide ReadVarInt;
    if n <= 0x7f {
      ReadDigit(0, n, s, size);
    } else {
      var c: Byte := n % 128;
      assert VarInt(n) + s == Leading(n / 128 - 1) + ([c] + s);
      LeadingReads(n / 128 - 1, [c] + s, size);
      ReadDigit(n / 128, c, s, size);
    }
  }

  // ---------- What the bytes of a number mean ----------

  /** The digits of base 128 from the highest down; each stands for one more than it says. */
  function DigitsOf(s: Bytes): nat {
    if s == [] then 0 else DigitsOf(s[..|s| - 1]) * 128 + s[|s| - 1] % 128 + 1
  }

  /** The number a sequence of bytes stands for; the last digit stands for itself. */
  function Meaning(s: Bytes): nat
    requires s != []
  {
    DigitsOf(s[..|s| - 1]) * 128 + s[|s| - 1] % 128
  }

  /** All bytes but the last have the high bit set. */
  predicate IsVarInt(s: Bytes) {
    s != [] && s[|s| - 1] < 0x80 && forall i :: 0 <= i < |s| - 1 ==> s[i] >= 0x80
  }

  lemma {:induction false} LeadingMeans(n: nat)
    ensures DigitsOf(Leading(n)) == n + 1 && forall i :: 0 <= i < |Leading(n)| ==> Leading(n)[i] >= 0x80
  {
    if n <= 0x7f {
      assert Leading(n)[..0] == [];
    } else {
      LeadingMeans(n / 128 - 1);
      assert Leading(n)[..|Leading(n)| - 1] == Leading(n / 128 - 1);
    }
  }

  lemma {:induction false} LeadingOf(s: Bytes)
    requires s != [] && forall i :: 0 <= i < |s| ==> s[i] >= 0x80
    ensures DigitsOf(s) > 0 && Leading(DigitsOf(s) - 1) == s
  {
    var init, c := s[..|s| - 1], s[|s| - 1];
    if init == [] {
      assert s == [c];
    } else {
      LeadingOf(init);
      DigitSplit(DigitsOf(init), c % 128);
      assert s == init + [c];
    }
  }

  lemma DigitSplit(n: nat, d: nat)
    requires d < 128
    ensures (n * 128 + d) / 128 == n && (n * 128 + d) % 128 == d
  {
  }

  lemma VarIntMeans(n: nat)
    ensures IsVarInt(VarInt(n)) && Meaning(VarInt(n)) == n
  {
    hide DigitsOf, Leading;
    var v := VarInt(n);
    NoDigits();
    if n <= 0x7f {
      assert v[..0] == [];
    } else {
      LeadingMeans(n / 128 - 1);
      assert v[..|v| - 1] == Leading(n / 128 - 1);
    }
  }

  lemma NoDigits()
    ensures DigitsOf([]) == 0
  {
  }

  lemma VarIntOf(s: Bytes)
    requires IsVarInt(s)
    ensures s == VarInt(Meaning(s))
  {
    hide DigitsOf, Leading;
    var init, c := s[..|s| - 1], s[|s| - 1];
    assert s == init + [c];
    DigitSplit(DigitsOf(init), c);
    NoDigits();
    if init != [] {
      LeadingOf(init);
    }
  }

  /** Every number is written with bytes that stand for it, and there is no other way to write it. */
  lemma VarIntIff(n: nat, s: Bytes)
    ensures s == VarInt(n) <==> IsVarInt(s) && Meaning(s) == n
  {
    hide VarInt, IsVarInt, Meaning;
    VarIntMeans(n);
    if IsVarInt(s) {
      VarIntOf(s);
    }
  }

  /** The examples given in the source, two of which are not what is written there. */
  lemma VarIntExamples()
    ensures VarInt(0) == [0x00] && VarInt(1) == [0x01] && VarInt(127) == [0x7f]
    ensures VarInt(128) == [0x80, 0x00] && VarInt(255) == [0x80, 0x7f] && VarInt(256) == [0x81, 0x00]
    ensures VarInt(16383) == [0xfe, 0x7f] && VarInt(16384) == [0xff, 0x00]
    ensures VarInt(16511) == [0xff, 0x7f] && VarInt(65535) == [0x82, 0xfe, 0x7f]
    ensures VarInt(0x1_0000_0000) == [0x8e, 0xfe, 0xfe, 0xff, 0x00]
  {
    assert Leading(0x1_0000_0000 / 128 - 1) == [0x8e, 0xfe, 0xfe, 0xff];
  }

  // ---------- Amounts ----------

  function Pow10(e: nat): (p: nat)
    ensures p > 0
  {
    if e == 0 then 1 else 10 * Pow10(e - 1)
  }

  /** Takes up to nine factors of ten off `n`, `e` of them being off already. */
  function Stripped(n: nat, e: nat): (nat, nat)
    decreases 9 - e
  {
    if n % 10 == 0 && e < 9 then Stripped(n / 10, e + 1) else (n, e)
  }

  function Compressed(n: nat): nat {
    if n == 0 then 0 else
      var (m, e) := Stripped(n, 0);
      if e < 9 then 1 + (m / 10 * 9 + m % 10 - 1) * 10 + e else 1 + (m - 1) * 10 + 9
  }

  function Mantissa(y: nat): nat {
    if y % 10 < 9 then y / 10 / 9 * 10 + (y / 10 % 9 + 1) else y / 10 + 1
  }

  function Decompressed(x: nat): nat {
    if x == 0 then 0 else Mantissa(x - 1) * Pow10((x - 1) % 10)
  }

  lemma {:induction false} StrippedIs(n: nat, e: nat)
    requires n > 0 && e <= 9
    ensures var (m, f) := Stripped(n, e);
            && m > 0 && e <= f <= 9 && n == m * Pow10(f - e) && (f == 9 || m % 10 != 0)
    decreases 9 - e
  {
    if n % 10 == 0 && e < 9 {
      StrippedIs(n / 10, e + 1);
      var (m, f) := Stripped(n, e);
      PowStep(m, f - e);
    }
  }

  lemma PowStep(m: nat, k: nat)
    requires k > 0
    ensures m * Pow10(k) == 10 * (m * Pow10(k - 1))
  {
  }

  lemma {:induction false} StrippedOf(m: nat, e: nat, f: nat)
    requires m > 0 && e <= f <= 9 && (f == 9 || m % 10 != 0)
    ensures Stripped(m * Pow10(f - e), e) == (m, f)
    decreases f - e
  {
    if e < f {
      PowStep(m, f - e);
      StrippedOf(m, e + 1, f);
    }
  }

  lemma PowAtLeast(m: nat, k: nat)
    ensures m * Pow10(k) >= m
  {
  }

  lemma MantissaOf(m: nat, e: nat)
    requires m > 0 && e <= 9 && (e == 9 || m % 10 != 0)
    ensures var x := if e < 9 then 1 + (m / 10 * 9 + m % 10 - 1) * 10 + e else 1 + (m - 1) * 10 + 9;
            Mantissa(x - 1) == m && (x - 1) % 10 == e
  {
  }

  lemma MantissaIs(y: nat)
    ensures var (m, e) := (Mantissa(y), y % 10);
            && m > 0 && (e == 9 || m % 10 != 0)
            && 1 + y == if e < 9 then 1 + (m / 10 * 9 + m % 10 - 1) * 10 + e else 1 + (m - 1) * 10 + 9
  {
    var e, x := y % 10, y / 10;
    assert y == 10 * x + e;
    if e < 9 {
      var n, d := x / 9, x % 9;
      assert x == 9 * n + d;
      TenTimes(n, d + 1);
    }
  }

  lemma TenTimes(n: nat, d: nat)
    requires d < 10
    ensures (n * 10 + d) / 10 == n && (n * 10 + d) % 10 == d
  {
  }

  /** Every amount is decompressed from its compressed form. */
  lemma DecompressCompressed(n: nat)
    ensures Decompressed(Compressed(n)) == n
  {
    if n > 0 {
      StrippedIs(n, 0);
      var (m, e) := Stripped(n, 0);
      MantissaOf(m, e);
    }
  }

  /** Every number is the compressed form of what it decompresses to. */
  lemma CompressDecompressed(x: nat)
    ensures Compressed(Decompressed(x)) == x
  {
    hide Mantissa, Pow10;
    if x > 0 {
      PositiveComesBack(x);
    }
  }

  lemma PositiveComesBack(x: nat)
    requires x > 0
    ensures Compressed(Decompressed(x)) == x
  {
    hide Mantissa, Pow10, Compressed;
    MantissaIs(x - 1);
    CompressedIs(Mantissa(x - 1), (x - 1) % 10);
  }

  lemma CompressedIs(m: nat, e: nat)
    requires m > 0 && e <= 9 && (e == 9 || m % 10 != 0)
    ensures Compressed(m * Pow10(e)) ==
            if e < 9 then 1 + (m / 10 * 9 + m % 10 - 1) * 10 + e else 1 + (m - 1) * 10 + 9
  {
    StrippedOf(m, 0, e);
    PowAtLeast(m, e);
  }

  /** Amounts in hundred-millionths: a hundredth, one, fifty and 21 million coins. */
  lemma AmountExamples()
    ensures Compressed(0) == 0 && Compressed(1) == 1 && Compressed(1000000) == 7 && Compressed(100000000) == 9
    ensures Compressed(5000000000) == 50 && Compressed(2100000000000000) == 21000000
  {
    assert Pow10(6) == 1000000 && Pow10(8) == 100000000 && Pow10(9) == 1000000000;
    CompressedIs(1, 0);
    CompressedIs(1, 6);
    CompressedIs(1, 8);
    CompressedIs(5, 9);
    CompressedIs(2100000, 9);
  }

  lemma {:induction false} StrippedIsSmaller(n: nat, e: nat)
    ensures Stripped(n, e).0 <= n
    decreases 9 - e
  {
    if n % 10 == 0 && e < 9 {
      StrippedIsSmaller(n / 10, e + 1);
    }
  }

  /** Compressed amounts fit into 64 bits for all amounts of up to 60. */
  lemma CompressedFits(n: nat)
    requires n < 0x1000_0000_0000_0000
    ensures Compressed(n) < TWO64
  {
    if n > 0 {
      StrippedIs(n, 0);
      StrippedIsSmaller(n, 0);
    }
  }

  // ---------- Amounts whose compressed form wraps around ----------

  /** Only amounts that end in a digit other than zero have a compressed form of more than 64 bits. */
  lemma TooLongHasDigit(v: nat)
    requires v < TWO64 <= Compressed(v)
    ensures v % 10 != 0 && Compressed(v) == 1 + Tenfold(v)
  {
    StrippedIs(v, 0);
    var (m, e) := Stripped(v, 0);
    if e > 0 {
      PowStep(m, e);
      PowAtLeast(m, e - 1);
    }
  }

  /** The compressed form, less one, of an amount that does not end in zero. */
  function Tenfold(v: nat): int { (v / 10 * 9 + v % 10 - 1) * 10 }

  /** After `j` times wrapping around, the mantissa read back is too small by about `j` ninths of 2 to the 64. */
  lemma WrappedMantissa(v: nat, j: nat, y: nat)
    requires v % 10 != 0 && y == Tenfold(v) - j * TWO64 && y % 10 < 9
    ensures -8 <= 9 * (Mantissa(y) - v) + j * TWO64 + y % 10 <= 8
  {
    var a := y / 10;
    assert 9 * (a / 9) + a % 9 == a && 10 * a + y % 10 == y;
  }

  /** Whether `v` is read back as it was, if the mantissa is too small by `q` and is multiplied by `p`. */
  predicate Solves(v: nat, q: nat, p: nat) { ((v - q) * p - v) % TWO64 == 0 }

  /** There is only one such amount, since `p - 1` has an inverse modulo 2 to the 64. */
  lemma SolutionIsUnique(v: nat, u: nat, q: nat, p: nat, inverse: nat)
    requires v < TWO64 && u < TWO64 && Solves(v, q, p) && Solves(u, q, p) && (p - 1) * inverse % TWO64 == 1
    ensures v == u
  {
    var a, b, d := (v - q) * p - v, (u - q) * p - u, v - u;
    Multiple(a);
    Multiple(b);
    Multiple((p - 1) * inverse - 1);
    Difference(v, u, q, p);
    Cancel(d, p - 1, inverse, a / TWO64 - b / TWO64, ((p - 1) * inverse - 1) / TWO64);
  }

  lemma Multiple(a: int)
    ensures a % TWO64 == 0 ==> a == a / TWO64 * TWO64
    ensures (a + 1) % TWO64 == 1 ==> a % TWO64 == 0
  {
  }

  lemma Difference(v: int, u: int, q: int, p: int)
    ensures (v - u) * (p - 1) == ((v - q) * p - v) - ((u - q) * p - u)
  {
  }

  lemma Cancel(d: int, a: int, inverse: int, k: int, t: int)
    requires d < TWO64 && -d < TWO64 && d * a == k * TWO64 && a * inverse == t * TWO64 + 1
    ensures d == 0
  {
    assert d * (a * inverse) == (d * a) * inverse;
    assert d * (t * TWO64 + 1) == d * t * TWO64 + d;
    assert (k * TWO64) * inverse == k * inverse * TWO64;
    NoMultiple(d, k * inverse - d * t);
  }

  lemma NoMultiple(d: int, z: int)
    requires d < TWO64 && -d < TWO64 && d == z * TWO64
    ensures d == 0
  {
  }

  /** An amount that does not wrap around `j` times. */
  predicate Otherwise(v: nat, j: nat) { v % 10 == 0 || (1 + Tenfold(v)) / TWO64 != j }

  lemma WrapsAround(v: nat, j: nat, y: nat)
    requires v % 10 != 0 && y == Tenfold(v) - j * TWO64 && y + 1 < TWO64
    ensures !Otherwise(v, j)
  {
    hide Tenfold;
  }

  lemma ReadBackSolves(v: nat, m: nat, p: nat)
    requires m * p % TWO64 == v
    ensures m <= v ==> Solves(v, v - m, p)
  {
    var z := m * p / TWO64;
    assert m * p == z * TWO64 + v;
  }

  /** The mantissa can be too small in two ways; the only amount that each leaves, `u1` or `u2`, is not among those
      that wrap around `j` times.  All these are numbers, so this is a matter of calculating. */
  predicate NoneReadsBack(j: nat, e: nat, p: nat, inverse: nat, q: nat, u1: nat, u2: nat) {
    && p > 0 && (p - 1) * inverse % TWO64 == 1 && 9 * q - 9 < j * TWO64 + e - 8 <= 9 * q
    && u1 < TWO64 && Solves(u1, q, p) && Otherwise(u1, j)
    && u2 < TWO64 && Solves(u2, q + 1, p) && Otherwise(u2, j)
  }

  /** By how much the mantissa can be too small. */
  lemma TwoWays(j: nat, e: nat, p: nat, inverse: nat, q: nat, u1: nat, u2: nat, d: int)
    requires NoneReadsBack(j, e, p, inverse, q, u1, u2) && -8 <= j * TWO64 + e - 9 * d <= 8
    ensures d == q || d == q + 1
  {
    hide Solves, Otherwise;
  }

  lemma SolutionIsOther(j: nat, e: nat, p: nat, inverse: nat, q: nat, u1: nat, u2: nat, v: nat, m: nat)
    requires NoneReadsBack(j, e, p, inverse, q, u1, u2) && v < TWO64 && (v - m == q || v - m == q + 1)
    requires m * p % TWO64 == v
    ensures Otherwise(v, j)
  {
    hide Solves, Otherwise;
    ReadBackSolves(v, m, p);
    SolutionIsUnique(v, if v - m == q then u1 else u2, v - m, p, inverse);
  }

  lemma NotReadBack(v: nat, j: nat, y: nat, e: nat, p: nat)
    requires v < TWO64 && v % 10 != 0 && y == Tenfold(v) - j * TWO64 && y + 1 < TWO64 && y % 10 == e < 9
    requires exists inverse, q, u1, u2 :: NoneReadsBack(j, e, p, inverse, q, u1, u2)
    ensures Mantissa(y) * p % TWO64 != v
  {
    hide Mantissa, Tenfold, Otherwise, NoneReadsBack;
    var inverse, q, u1, u2 :| NoneReadsBack(j, e, p, inverse, q, u1, u2);
    var m := Mantissa(y);
    WrappedMantissa(v, j, y);
    WrapsAround(v, j, y);
    TwoWays(j, e, p, inverse, q, u1, u2, v - m);
    if m * p % TWO64 == v {
      SolutionIsOther(j, e, p, inverse, q, u1, u2, v, m);
    }
  }

  lemma Powers()
    ensures Pow10(0) == 1 && Pow10(2) == 100 && Pow10(4) == 10000 && Pow10(6) == 1000000 && Pow10(8) == 100000000
  {
    assert Pow10(4) == 10000;
  }

  lemma LastDigit(v: nat, j: nat, y: nat)
    requires y == Tenfold(v) - j * TWO64
    ensures y % 10 == 4 * j % 10
  {
  }

  lemma Calculated()
    ensures NoneReadsBack(1, 4, 10000, 13458245626333751279, 2049638230412172402,
                          15288550632769423584, 10300052185393623248)
    ensures NoneReadsBack(2, 8, 100000000, 300153063250403071, 4099276460824344804,
                          14480868974329830400, 14781022037580233472)
    ensures NoneReadsBack(3, 2, 100, 12670490878911611211, 6148914691236517205,
                          1925417731599313468, 14595908610510924680)
    ensures NoneReadsBack(4, 6, 1000000, 1672254362768354751, 8198552921648689607,
                          14161661572577611840, 15833915935345966592)
    ensures NoneReadsBack(6, 4, 10000, 13458245626333751279, 12297829382473034411,
                          4486081875444583760, 17944327501778335040)
    ensures NoneReadsBack(7, 8, 100000000, 300153063250403071, 14347467612885206813,
                          4266028162630124288, 4566181225880527360)
    ensures NoneReadsBack(8, 2, 100, 12670490878911611211, 16397105843297379214,
                          7432526512302726184, 1656273317504785780)
  {
  }

  /** All ways of wrapping around; after five times the power is 1, and the mantissa alone is too small. */
  lemma WrappedIsOther(v: nat, j: nat, y: nat)
    requires v < TWO64 && v % 10 != 0 && y == Tenfold(v) - j * TWO64 && y + 1 < TWO64 && 1 <= j <= 8
    ensures Mantissa(y) * Pow10(y % 10) % TWO64 != v
  {
    hide Mantissa, Pow10, Tenfold, NoneReadsBack;
    Powers();
    Calculated();
    LastDigit(v, j, y);
    match j
    case 5 => WrappedMantissa(v, j, y);
    case 1 => NotReadBack(v, j, y, 4, 10000);
    case 2 => NotReadBack(v, j, y, 8, 100000000);
    case 3 => NotReadBack(v, j, y, 2, 100);
    case 4 => NotReadBack(v, j, y, 6, 1000000);
    case 6 => NotReadBack(v, j, y, 4, 10000);
    case 7 => NotReadBack(v, j, y, 8, 100000000);
    case 8 => NotReadBack(v, j, y, 2, 100);
  }

  lemma TenfoldIsLess(v: nat)
    ensures Tenfold(v) < 9 * v || v == 0
  {
  }

  lemma DecompressedIs(x: nat)
    ensures Decompressed(x) == if x == 0 then 0 else Mantissa(x - 1) * Pow10((x - 1) % 10)
  {
  }

  lemma WrappedIsNotReadBack(v: nat)
    requires v < TWO64 <= Compressed(v)
    ensures Decompressed(Compressed(v) % TWO64) % TWO64 != v
  {
    hide Compressed, Mantissa, Pow10, Tenfold, Decompressed;
    TooLongHasDigit(v);
    TenfoldIsLess(v);
    var j, x := Compressed(v) / TWO64, Compressed(v) % TWO64;
    DecompressedIs(x);
    if x > 0 {
      WrappedIsOther(v, j, x - 1);
    }
  }

  /** An amount of 64 bits is read back exactly if its compressed form fits into 64 bits as well. */
  lemma AmountIff(v: nat)
    requires v < TWO64
    ensures Decompressed(Compressed(v) % TWO64) % TWO64 == v <==> Compressed(v) < TWO64
  {
    hide Compressed, Decompressed;
    DecompressCompressed(v);
    if Compressed(v) >= TWO64 {
      WrappedIsNotReadBack(v);
    }
  }

  method CompressAmount(amount: nat) returns (x: nat)
    requires amount < TWO64
    ensures x == Compressed(amount) % TWO64
  {
    if amount == 0 {
      return 0;
    }
    var n, e := amount, 0;
    while n % 10 == 0 && e < 9
      invariant n > 0 && 0 <= e <= 9 && Stripped(n, e) == Stripped(amount, 0)
      decreases n
    {
      n := n / 10;
      e := e + 1;
    }
    if e < 9 {
      var d := n % 10;
      assert 1 <= d <= 9;
      n := n / 10;
      x := (1 + (n * 9 + d - 1) * 10 + e) % TWO64;
    } else {
      x := (1 + (n - 1) * 10 + 9) % TWO64;
    }
  }

  lemma TimesTen(n: nat)
    ensures n % TWO64 * 10 % TWO64 == n * 10 % TWO64
  {
  }

  method DecompressAmount(x: nat) returns (amount: nat)
    requires x < TWO64
    ensures amount == Decompressed(x) % TWO64
  {
    if x == 0 {
      return 0;
    }
    var y := x - 1;
    var e := y % 10;
    y := y / 10;
    var n;
    if e < 9 {
      var d := y % 9 + 1;
      y := y / 9;
      n := y * 10 + d;
    } else {
      n := y + 1;
    }
    amount := ScaleUp(n, e);
  }

  /** Multiplies by ten `exponent` times, wrapping around. */
  method ScaleUp(mantissa: nat, exponent: nat) returns (n: nat)
    requires mantissa < TWO64
    ensures n == mantissa * Pow10(exponent) % TWO64
  {
    n := mantissa;
    var e := exponent;
    ghost var exact := mantissa;
    while e > 0
      invariant exact * Pow10(e) == mantissa * Pow10(exponent) && n == exact % TWO64
    {
      PowStep(exact, e);
      TimesTen(exact);
      n := n * 10 % TWO64;
      exact := exact * 10;
      e := e - 1;
    }
  }

  // ---------- Scripts ----------

  const OP_DUP: Byte := 0x76
  const OP_HASH160: Byte := 0xa9
  const OP_EQUAL: Byte := 0x87
  const OP_EQUALVERIFY: Byte := 0x88
  const OP_CHECKSIG: Byte := 0xac
  const SPECIAL_SCRIPTS: nat := 6

  /** What is needed of elliptic curves: whether a full public key is a point, and the full key of a short one. */
  datatype Curve = Curve(valid: Bytes -> bool, decompress: Bytes -> Option<Bytes>) {
    /** A valid full key can be computed from its first half and the parity of the other. */
    ghost predicate Sound() {
      && (forall key: Bytes :: |key| == 65 && key[0] == 0x04 && valid(key) ==> decompress(ShortKey(key)) == Some(key))
      && forall key: Bytes :: decompress(key).Some? ==> |decompress(key).value| == 65
    }
  }

  function ShortKey(key: Bytes): Bytes
    requires |key| == 65
  {
    [2 + key[64] % 2] + key[1..33]
  }

  predicate IsToKeyID(s: Script) {
    |s| == 25 && s[0] == OP_DUP && s[1] == OP_HASH160 && s[2] == 20 && s[23] == OP_EQUALVERIFY && s[24] == OP_CHECKSIG
  }

  predicate IsToScriptID(s: Script) {
    |s| == 23 && s[0] == OP_HASH160 && s[1] == 20 && s[22] == OP_EQUAL
  }

  predicate IsToShortKey(s: Script) {
    |s| == 35 && s[0] == 33 && s[34] == OP_CHECKSIG && (s[1] == 0x02 || s[1] == 0x03)
  }

  predicate IsToFullKey(curve: Curve, s: Script) {
    |s| == 67 && s[0] == 65 && s[66] == OP_CHECKSIG && s[1] == 0x04 && curve.valid(s[1..66])
  }

  function CompressScript(curve: Curve, s: Script): Option<Bytes> {
    if IsToKeyID(s) then Some([0x00] + s[3..23])
    else if IsToScriptID(s) then Some([0x01] + s[2..22])
    else if IsToShortKey(s) then Some([s[1]] + s[2..34])
    else if IsToFullKey(curve, s) then Some([4 + s[65] % 2] + s[2..34])
    else None
  }

  function GetSpecialSize(size: nat): nat {
    if size < 2 then 20 else if size < 6 then 32 else 0
  }

  /** The script of a special form, or `script` if there is none. */
  function DecompressScript(curve: Curve, size: nat, input: Bytes, script: Script): Script
    requires size < SPECIAL_SCRIPTS && |input| == GetSpecialSize(size)
  {
    if size == 0 then [OP_DUP, OP_HASH160, 20] + input + [OP_EQUALVERIFY, OP_CHECKSIG]
    else if size == 1 then [OP_HASH160, 20] + input + [OP_EQUAL]
    else if size < 4 then [33, size] + input + [OP_CHECKSIG]
    else
      match curve.decompress([size - 2] + input)
      case None => script
      case Some(key) => [65] + key + [OP_CHECKSIG]
  }

  function WriteScript(curve: Curve, s: Script): Bytes {
    match CompressScript(curve, s)
    case Some(short) => short
    case None => VarInt(|s| + SPECIAL_SCRIPTS) + s
  }

  function ReadScript(curve: Curve, s: Bytes): Read<Script> {
    match ReadVarInt(0, s, TWO32)
    case Short => Short
    case Got(size, rest) =>
      if size < SPECIAL_SCRIPTS then
        var n := GetSpecialSize(size);
        if |rest| < n then Short else Got(DecompressScript(curve, size, rest[..n], []), rest[n..])
      else if |rest| < size - SPECIAL_SCRIPTS then Short
      else Got(rest[..size - SPECIAL_SCRIPTS], rest[size - SPECIAL_SCRIPTS..])
  }

  /** The scripts that have a short form, and their short forms: those that pay to a key or a hash. */
  lemma ShortFormIff(curve: Curve, s: Script, short: Bytes)
    ensures CompressScript(curve, s) == Some(short) <==>
            || (|short| == 21 && short[0] == 0 && s == [0x76, 0xa9, 20] + short[1..] + [0x88, 0xac])
            || (|short| == 21 && short[0] == 1 && s == [0xa9, 20] + short[1..] + [0x87])
            || (|short| == 33 && 2 <= short[0] <= 3 && s == [33] + short + [0xac])
            || (|s| == 67 && s[0] == 65 && s[1] == 4 && s[66] == 0xac && curve.valid(s[1..66])
                && short == [if s[65] % 2 == 0 then 4 else 5] + s[2..34])
  {
    if |short| == 21 {
      assert short == [short[0]] + short[1..];
      KeyHashForm(s, short[1..]);
      ScriptHashForm(s, short[1..]);
    }
    if |short| == 33 {
      ShortKeyForm(s, short);
    }
  }

  lemma KeyHashForm(s: Script, hash: Bytes)
    requires |hash| == 20
    ensures s == [0x76, 0xa9, 20] + hash + [0x88, 0xac] <==> IsToKeyID(s) && s[3..23] == hash
  {
    assert IsToKeyID(s) ==> s == [0x76, 0xa9, 20] + s[3..23] + [0x88, 0xac];
  }

  lemma ScriptHashForm(s: Script, hash: Bytes)
    requires |hash| == 20
    ensures s == [0xa9, 20] + hash + [0x87] <==> IsToScriptID(s) && s[2..22] == hash
  {
    assert IsToScriptID(s) ==> s == [0xa9, 20] + s[2..22] + [0x87];
  }

  lemma ShortKeyForm(s: Script, key: Bytes)
    requires |key| == 33
    ensures s == [33] + key + [0xac] && 2 <= key[0] <= 3 <==> IsToShortKey(s) && [s[1]] + s[2..34] == key
  {
    if IsToShortKey(s) && [s[1]] + s[2..34] == key {
      assert key[1..] == s[2..34];
      assert s == [33] + key + [0xac];
    }
  }

  /** A special script is the decompression of its compressed form, which begins with its kind. */
  lemma SpecialScript(curve: Curve, s: Script)
    requires curve.Sound() && CompressScript(curve, s).Some?
    ensures var short := CompressScript(curve, s).value;
            && short != [] && short[0] < SPECIAL_SCRIPTS && |short| == 1 + GetSpecialSize(short[0])
            && DecompressScript(curve, short[0], short[1..], []) == s
  {
    if !IsToKeyID(s) && !IsToScriptID(s) && !IsToShortKey(s) {
      FullKeyScript(curve, s);
    }
  }

  lemma FullKeyScript(curve: Curve, s: Script)
    requires curve.Sound() && IsToFullKey(curve, s)
    ensures var short := [4 + s[65] % 2] + s[2..34];
            DecompressScript(curve, short[0], short[1..], []) == s
  {
    var short, key := [4 + s[65] % 2] + s[2..34], s[1..66];
    assert key[64] == s[65] && key[1..33] == s[2..34] && short[1..] == s[2..34];
    assert [short[0] - 2] + short[1..] == ShortKey(key);
    assert curve.decompress(ShortKey(key)) == Some(key);
    assert s == [65] + key + [OP_CHECKSIG];
  }

  lemma ReadSpecial(curve: Curve, short: Bytes, rest: Bytes)
    requires short != [] && short[0] < SPECIAL_SCRIPTS && |short| == 1 + GetSpecialSize(short[0])
    ensures ReadScript(curve, short + rest) == Got(DecompressScript(curve, short[0], short[1..], []), rest)
  {
    hide ReadVarInt, DecompressScript;
    assert short + rest == [short[0]] + (short[1..] + rest);
    ReadDigit(0, short[0], short[1..] + rest, TWO32);
  }

  lemma ReadPlain(curve: Curve, s: Script, rest: Bytes)
    requires |s| + SPECIAL_SCRIPTS < TWO32
    ensures ReadScript(curve, VarInt(|s| + SPECIAL_SCRIPTS) + s + rest) == Got(s, rest)
  {
    assert VarInt(|s| + SPECIAL_SCRIPTS) + s + rest == VarInt(|s| + SPECIAL_SCRIPTS) + (s + rest);
    VarIntRoundTrip(|s| + SPECIAL_SCRIPTS, s + rest, TWO32);
  }

  lemma ScriptRoundTrip(curve: Curve, s: Script, rest: Bytes)
    requires curve.Sound() && |s| + SPECIAL_SCRIPTS < TWO32
    ensures ReadScript(curve, WriteScript(curve, s) + rest) == Got(s, rest)
  {
    if CompressScript(curve, s).Some? {
      SpecialScript(curve, s);
      ReadSpecial(curve, CompressScript(curve, s).value, rest);
    } else {
      ReadPlain(curve, s, rest);
    }
  }

  // ---------- Outputs ----------

  /** A number of 64 bits as a signed one. */
  function Signed(n: nat, size: nat): int { if 2 * n < size then n else n - size }

  function WriteTxOut(curve: Curve, o: TxOut): Bytes {
    VarInt(Compressed(o.value % TWO64) % TWO64) + WriteScript(curve, o.script)
  }

  function ReadTxOut(curve: Curve, s: Bytes): Read<TxOut> {
    match ReadVarInt(0, s, TWO64)
    case Short => Short
    case Got(n, rest) =>
      match ReadScript(curve, rest)
      case Short => Short
      case Got(script, after) => Got(TxOut(Signed(Decompressed(n) % TWO64, TWO64), script), after)
  }

  /** An output of 64 bits, with a script whose length can be written. */
  predicate Encodable(o: TxOut) {
    -0x8000_0000_0000_0000 <= o.value < 0x8000_0000_0000_0000 && |o.script| + SPECIAL_SCRIPTS < TWO32
  }

  /** Whether the compressed form of its amount fits into 64 bits. */
  predicate AmountFits(o: TxOut) { Compressed(o.value % TWO64) < TWO64 }

  /** All legal amounts fit: there is far less money than this. */
  lemma LegalAmountFits(o: TxOut)
    requires 0 <= o.value < 0x1000_0000_0000_0000
    ensures AmountFits(o)
  {
    CompressedFits(o.value);
  }

  /** What is read of an output that has been written. */
  function ReadBack(o: TxOut): TxOut {
    TxOut(Signed(Decompressed(Compressed(o.value % TWO64) % TWO64) % TWO64, TWO64), o.script)
  }

  lemma SameValue(value: int, n: nat)
    requires -0x8000_0000_0000_0000 <= value < 0x8000_0000_0000_0000 && n < TWO64
    ensures Signed(n, TWO64) == value <==> n == value % TWO64
  {
  }

  lemma ReadBackIff(o: TxOut)
    requires Encodable(o)
    ensures ReadBack(o) == o <==> AmountFits(o)
  {
    hide Compressed, Decompressed, Signed;
    AmountIff(o.value % TWO64);
    SameValue(o.value, Decompressed(Compressed(o.value % TWO64) % TWO64) % TWO64);
  }

  lemma TxOutReadBack(curve: Curve, o: TxOut, rest: Bytes)
    requires curve.Sound() && Encodable(o)
    ensures ReadTxOut(curve, WriteTxOut(curve, o) + rest) == Got(ReadBack(o), rest)
  {
    hide Curve.Sound, ReadVarInt, ReadScript, WriteScript, Decompressed, Compressed, VarInt, Signed;
    var amount, script := Compressed(o.value % TWO64) % TWO64, WriteScript(curve, o.script);
    assert WriteTxOut(curve, o) + rest == VarInt(amount) + (script + rest);
    VarIntRoundTrip(amount, script + rest, TWO64);
    ScriptRoundTrip(curve, o.script, rest);
  }

  /** An output of any value is read back exactly if the compressed form of its amount fits into 64 bits. */
  lemma TxOutRoundTripIff(curve: Curve, o: TxOut, rest: Bytes)
    requires curve.Sound() && Encodable(o)
    ensures ReadTxOut(curve, WriteTxOut(curve, o) + rest) == Got(o, rest) <==> AmountFits(o)
  {
    hide ReadTxOut, WriteTxOut, ReadBack, Curve.Sound, AmountFits;
    TxOutReadBack(curve, o, rest);
    ReadBackIff(o);
  }

  /** An output that is not read back: the largest value of 64 bits wraps around when it is compressed. */
  lemma LargestAmountIsLost(curve: Curve, rest: Bytes)
    requires curve.Sound()
    ensures var o := TxOut(0x7fff_ffff_ffff_ffff, []);
            Encodable(o) && !AmountFits(o) && ReadTxOut(curve, WriteTxOut(curve, o) + rest) != Got(o, rest)
  {
    assert Compressed(0x7fff_ffff_ffff_ffff) >= TWO64;
    hide ReadTxOut, WriteTxOut, Curve.Sound, Compressed;
    TxOutRoundTripIff(curve, TxOut(0x7fff_ffff_ffff_ffff, []), rest);
  }
}
