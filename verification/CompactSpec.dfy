/** The compact form of 256-bit targets: a size in bytes, a sign and a mantissa of 23 bits. */
module CompactSpec {
  import opened Common
  import opened Limbs
  import ShiftLemmas

  const SIGN: nat := 0x80_0000
  const SIZE: nat := 0x100_0000

  // ---------- From the compact form ----------

  function DivPositive(x: nat, p: nat): nat
    requires p > 0
  {
    ShiftLemmas.DivNotNegative(x, p);
    x / p
  }

  function SizeOf(c: nat): nat { c / SIZE }

  /** The mantissa, from which a small size takes the lower bytes. */
  function WordOf(c: nat): nat {
    var word := c % SIGN;
    if SizeOf(c) <= 3 then DivPositive(word, Pow2(8 * (3 - SizeOf(c)))) else word
  }

  /** The number meant, however large. */
  function Meant(c: nat): nat {
    if SizeOf(c) <= 3 then WordOf(c)
    else (NotNegative(WordOf(c), Pow2(8 * (SizeOf(c) - 3))); WordOf(c) * Pow2(8 * (SizeOf(c) - 3)))
  }

  predicate IsNegative(c: nat) { WordOf(c) != 0 && c / SIGN % 2 == 1 }

  predicate Overflows(c: nat) {
    WordOf(c) != 0 && (SizeOf(c) > 34 || (WordOf(c) > 0xff && SizeOf(c) > 33) || (WordOf(c) > 0xffff && SizeOf(c) > 32))
  }

  /** A product of a word and a power of two reaches a power of two exactly if the word reaches the rest. */
  lemma Reaches(word: nat, a: nat, b: nat)
    ensures word * Pow2(b) >= Pow2(a + b) <==> word >= Pow2(a)
  {
    Pow2Add(a, b);
    if word >= Pow2(a) {
      Scale(Pow2(a), word, Pow2(b));
    } else {
      Scale(word, Pow2(a), Pow2(b));
    }
  }

  /** The overflow flag tells exactly whether the number meant has more than 256 bits. */
  lemma OverflowIff(c: nat)
    ensures Overflows(c) <==> Meant(c) >= Pow2(256)
  {
    hide Pow2;
    var word, size := WordOf(c), SizeOf(c);
    Pow2Of32();
    WordFits(c);
    if size <= 3 {
      Pow2Grows(24, 256);
    } else {
      WordReaches(word, size);
    }
  }

  /** A word of 23 bits, so many bytes up, exceeds 256 bits exactly in the cases looked at. */
  lemma WordReaches(word: nat, size: nat)
    requires word < SIGN && size > 3
    ensures word * Pow2(8 * (size - 3)) >= Pow2(256) <==>
            word != 0 && (size > 34 || (word > 0xff && size > 33) || (word > 0xffff && size > 32))
  {
    hide Pow2;
    Pow2Of32();
    if size > 34 {
      if word > 0 {
        Pow2Grows(256, 8 * (size - 3));
        Scale(1, word, Pow2(8 * (size - 3)));
      } else {
        Pow2Grows(0, 256);
      }
    } else {
      if size <= 32 {
        Pow2Grows(24, 256 - 8 * (size - 3));
      }
      Reaches(word, 256 - 8 * (size - 3), 8 * (size - 3));
    }
  }

  lemma WordFits(c: nat)
    ensures WordOf(c) < SIGN
  {
    if SizeOf(c) <= 3 {
      var p := Pow2(8 * (3 - SizeOf(c)));
      var q := (c % SIGN) / p;
      if q >= SIGN {
        Scale(SIGN, q, p);
        Scale(1, p, SIGN);
      }
    }
  }

  // ---------- To the compact form ----------

  function BitLength(x: nat): nat { if x == 0 then 0 else 1 + BitLength(x / 2) }

  lemma {:induction false} BitLengthIs(x: nat)
    ensures x < Pow2(BitLength(x))
    ensures x > 0 ==> BitLength(x) > 0 && Pow2(BitLength(x) - 1) <= x
  {
    if x > 0 {
      BitLengthIs(x / 2);
    }
  }

  lemma BitLengthUnique(x: nat, n: nat)
    requires n > 0 && Pow2(n - 1) <= x < Pow2(n)
    ensures BitLength(x) == n
  {
    BitLengthIs(x);
    if BitLength(x) < n {
      Pow2Grows(BitLength(x), n - 1);
    } else if BitLength(x) > n {
      Pow2Grows(n, BitLength(x) - 1);
    }
  }

  lemma {:induction false} BitLengthGrows(x: nat, y: nat)
    requires x <= y
    ensures BitLength(x) <= BitLength(y)
  {
    if x > 0 {
      BitLengthGrows(x / 2, y / 2);
    }
  }

  /** The bytes needed for a number and its sign. */
  function ByteSize(x: nat): nat { if x == 0 then 0 else BitLength(x) / 8 + 1 }

  /** The three highest of these bytes. */
  function Mantissa(x: nat): nat {
    if ByteSize(x) <= 3 then (NotNegative(x, Pow2(8 * (3 - ByteSize(x)))); x * Pow2(8 * (3 - ByteSize(x))))
    else DivPositive(x, Pow2(8 * (ByteSize(x) - 3)))
  }

  function Compact(x: nat, negative: bool): nat {
    ByteSize(x) * SIZE + Mantissa(x) + if negative && Mantissa(x) != 0 then SIGN else 0
  }

  // ---------- There and back ----------

  /** The highest bit is below the sign bit, and within the first of the bytes or just below it. */
  lemma BytesAre(x: nat)
    requires x > 0
    ensures var s := ByteSize(x); s > 0 && Pow2(8 * s - 8) <= 2 * x && x < Pow2(8 * s - 1)
    ensures var s := ByteSize(x); s > 3 ==> Pow2(8 * (s - 3)) <= x
  {
    var n, s := BitLength(x), ByteSize(x);
    BitLengthIs(x);
    Pow2Grows(n, 8 * s - 1);
    Pow2Grows(8 * s - 8, n);
    if s > 3 {
      Pow2Grows(8 * (s - 3), n - 1);
    }
  }

  lemma DivBelow(x: nat, p: nat, m: nat)
    requires p > 0 && x < m * p
    ensures x / p < m
  {
    if x / p >= m {
      Scale(m, x / p, p);
    }
  }

  /** The mantissa fits into 23 bits, and is not zero unless the number is. */
  lemma MantissaFits(x: nat)
    ensures Mantissa(x) < SIGN
    ensures Mantissa(x) == 0 <==> x == 0
  {
    var s := ByteSize(x);
    Pow2Of32();
    assert Pow2(24) == 2 * Pow2(23);
    if x == 0 {
      assert Mantissa(x) == 0;
    } else {
      BytesAre(x);
      hide BitLength;
      if s <= 3 {
        Pow2Add(8 * s - 1, 8 * (3 - s));
        Scale(x, Pow2(8 * s - 1), Pow2(8 * (3 - s)));
        Scale(1, x, Pow2(8 * (3 - s)));
      } else {
        Pow2Add(23, 8 * (s - 3));
        hide Pow2;
        DivBelow(x, Pow2(8 * (s - 3)), Pow2(23));
        AtLeastOne(x, Pow2(8 * (s - 3)));
      }
    }
  }

  lemma AtLeastOne(x: nat, p: nat)
    requires 0 < p <= x
    ensures x / p > 0
  {
    assert x == x / p * p + x % p;
  }

  /** The parts of a compact form. */
  lemma Parts(x: nat, negative: bool)
    ensures var c := Compact(x, negative);
            && SizeOf(c) == ByteSize(x) && c % SIGN == Mantissa(x)
            && (c / SIGN % 2 == 1 <==> negative && x != 0)
  {
    hide Mantissa, ByteSize;
    MantissaFits(x);
    var sign := if negative && Mantissa(x) != 0 then 1 else 0;
    var c := Compact(x, negative);
    DivModIs(c, ByteSize(x), Mantissa(x) + sign * SIGN, SIZE);
    DivModIs(c, 2 * ByteSize(x) + sign, Mantissa(x), SIGN);
  }

  /** What is lost: everything below the mantissa. */
  function Unit(x: nat): (u: nat)
    ensures u > 0
  {
    if ByteSize(x) <= 3 then 1 else Pow2(8 * (ByteSize(x) - 3))
  }

  /** The compact form stands for the number rounded down to the mantissa, and never overflows. */
  lemma RoundsDown(x: nat, negative: bool)
    ensures var c := Compact(x, negative);
            && Meant(c) == x - x % Unit(x)
            && (x < Pow2(256) ==> !Overflows(c))
            && (IsNegative(c) <==> negative && x != 0)
  {
    var c := Compact(x, negative);
    Parts(x, negative);
    MantissaFits(x);
    OverflowIff(c);
    hide BitLength, Pow2, ByteSize, Overflows;
    if ByteSize(x) <= 3 {
      DivModIs(Mantissa(x), x, 0, Pow2(8 * (3 - ByteSize(x))));
    } else {
      assert x == x / Unit(x) * Unit(x) + x % Unit(x);
    }
  }

  /** Rounding down keeps the highest bit, and the mantissa. */
  lemma RoundedAgain(x: nat)
    ensures var y := x - x % Unit(x);
            y >= 0 && ByteSize(y) == ByteSize(x) && Mantissa(y) == Mantissa(x)
  {
    var u, n := Unit(x), BitLength(x);
    var y := x - x % u;
    if ByteSize(x) > 3 {
      BitLengthIs(x);
      Pow2Add(8 * (ByteSize(x) - 3), n - 1 - 8 * (ByteSize(x) - 3));
      MultipleBelow(x, u, Pow2(n - 1 - 8 * (ByteSize(x) - 3)));
      BitLengthUnique(y, n);
      hide Pow2, BitLength;
      QuotientOf(x, u);
    }
  }

  /** A multiple that is not above a number is not above it rounded down either. */
  lemma MultipleBelow(x: nat, u: nat, k: nat)
    requires u > 0 && u * k <= x
    ensures 0 <= x - x % u <= x && u * k <= x - x % u
  {
    assert x == x / u * u + x % u;
    if x / u < k {
      Scale(x / u, k, u);
    } else {
      Scale(k, x / u, u);
    }
  }

  lemma QuotientOf(x: nat, u: nat)
    requires u > 0
    ensures x - x % u >= 0 && (x - x % u) / u == x / u
  {
    assert x == x / u * u + x % u;
    DivModIs(x - x % u, x / u, 0, u);
  }

  /** Encoding what a compact form stands for gives the same compact form. */
  lemma CompactIsFixed(x: nat, negative: bool)
    ensures Meant(Compact(x, negative)) >= 0
    ensures Compact(Meant(Compact(x, negative)), negative) == Compact(x, negative)
  {
    hide Mantissa, ByteSize, Unit;
    RoundsDown(x, negative);
    RoundedAgain(x);
  }

  lemma DivGrows(x: nat, y: nat, p: nat)
    requires x <= y && p > 0
    ensures x / p <= y / p
  {
    assert y == y / p * p + y % p;
    if x / p > y / p {
      Scale(y / p, x / p, p);
    }
  }

  /** A larger number has no smaller compact form. */
  lemma CompactIsMonotone(x: nat, y: nat)
    requires x <= y
    ensures Compact(x, false) <= Compact(y, false)
  {
    MantissaFits(x);
    MantissaFits(y);
    BitLengthGrows(x, y);
    hide BitLength, Pow2;
    if ByteSize(x) == ByteSize(y) {
      if ByteSize(x) <= 3 {
        Scale(x, y, Pow2(8 * (3 - ByteSize(x))));
      } else {
        DivGrows(x, y, Pow2(8 * (ByteSize(x) - 3)));
      }
    }
  }

  // ---------- Examples ----------

  lemma PartsOf(c: nat, size: nat, word: nat, negative: bool)
    requires word < SIGN && c == size * SIZE + word + if negative then SIGN else 0
    ensures SizeOf(c) == size && c % SIGN == word && c / SIGN % 2 == if negative then 1 else 0
  {
    assert c / SIGN == 2 * size + if negative then 1 else 0;
  }

  lemma SmallMeant(c: nat, size: nat, word: nat, negative: bool)
    requires size <= 3 && word < SIGN && c == size * SIZE + word + if negative then SIGN else 0
    ensures Meant(c) == WordOf(c) == word / Pow2(8 * (3 - size)) && (IsNegative(c) <==> negative && Meant(c) != 0)
  {
    hide Pow2;
    PartsOf(c, size, word, negative);
  }

  lemma LargeMeant(c: nat, size: nat, word: nat, negative: bool)
    requires size > 3 && word < SIGN && c == size * SIZE + word + if negative then SIGN else 0
    ensures Meant(c) == word * Pow2(8 * (size - 3)) && (IsNegative(c) <==> negative && word != 0)
  {
    hide Pow2;
    PartsOf(c, size, word, negative);
  }

  lemma SmallPowers()
    ensures Pow2(8) == 0x100 && Pow2(16) == 0x1_0000 && Pow2(24) == 0x100_0000
    ensures Pow2(4) == 0x10 && Pow2(5) == 0x20 && Pow2(6) == 0x40 && Pow2(7) == 0x80 && Pow2(12) == 0x1000
    ensures Pow2(13) == 0x2000 && Pow2(15) == 0x8000
  {
  }

  lemma LargePowers()
    ensures Pow2(28) == 0x1000_0000 && Pow2(29) == 0x2000_0000 && Pow2(31) == 0x8000_0000 && Pow2(32) == 0x1_0000_0000
  {
    SmallPowers();
    Pow2Add(16, 12);
    Pow2Add(16, 13);
    Pow2Add(16, 15);
    Pow2Add(16, 16);
  }

  /** Compact forms and what they mean: digits count only if there is room for them. */
  lemma MeantExamples()
    ensures Meant(0x00123456) == 0 && Meant(0x01003456) == 0 && Meant(0x03000000) == 0
    ensures Meant(0x01123456) == 0x12 && Meant(0x02123456) == 0x1234 && !IsNegative(0x02123456)
    ensures Meant(0x01fedcba) == 0x7e && IsNegative(0x01fedcba)
    ensures Meant(0x04923456) == 0x12345600 && IsNegative(0x04923456)
    ensures Meant(0x05009234) == 0x92340000 && !IsNegative(0x05009234)
  {
    hide Meant, WordOf, IsNegative, Pow2;
    SmallPowers();
    SmallMeant(0x00123456, 0, 0x123456, false);
    SmallMeant(0x01003456, 1, 0x3456, false);
    SmallMeant(0x03000000, 3, 0, false);
    SmallMeant(0x01123456, 1, 0x123456, false);
    SmallMeant(0x02123456, 2, 0x123456, false);
    SmallMeant(0x01fedcba, 1, 0x7edcba, true);
    LargeMeant(0x04923456, 4, 0x123456, true);
    LargeMeant(0x05009234, 5, 0x9234, false);
  }

  lemma SmallCompact(x: nat, n: nat, size: nat, negative: bool)
    requires n > 0 && Pow2(n - 1) <= x < Pow2(n) && size == n / 8 + 1 <= 3
    ensures x * Pow2(8 * (3 - size)) != 0
    ensures Compact(x, negative) == size * SIZE + x * Pow2(8 * (3 - size)) + if negative then SIGN else 0
  {
    hide Pow2;
    BitLengthUnique(x, n);
    ProductIsPositive(x, Pow2(8 * (3 - size)));
  }

  lemma ProductIsPositive(x: nat, p: nat)
    requires x > 0 && p > 0
    ensures x * p > 0
  {
  }

  lemma LargeCompact(x: nat, n: nat, size: nat)
    requires n > 0 && Pow2(n - 1) <= x < Pow2(n) && size == n / 8 + 1 > 3
    ensures Compact(x, false) == size * SIZE + x / Pow2(8 * (size - 3))
  {
    BitLengthUnique(x, n);
    Pow2Grows(0, n - 1);
  }

  /** Numbers and their compact forms: one byte more if the sign bit would be hit. */
  lemma CompactExamples()
    ensures Compact(0x12, false) == 0x01120000 && Compact(0x80, false) == 0x02008000
    ensures Compact(0x7e, true) == 0x01fe0000 && Compact(0x1234, false) == 0x02123400
    ensures Compact(0x12345600, false) == 0x04123456 && Compact(0x92340000, false) == 0x05009234
  {
    hide Compact, Pow2;
    SmallPowers();
    LargePowers();
    SmallCompact(0x12, 5, 1, false);
    SmallCompact(0x80, 8, 2, false);
    SmallCompact(0x7e, 7, 1, true);
    SmallCompact(0x1234, 13, 2, false);
    LargeCompact(0x12345600, 29, 4);
    LargeCompact(0x92340000, 32, 5);
  }
}
