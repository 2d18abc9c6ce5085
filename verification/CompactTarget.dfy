/** Reading and writing the compact form of a target with the operations on limbs. */
module CompactTarget {
  import opened Common
  import opened Limbs
  import opened LimbLemmas
  import opened ShiftLemmas
  import opened ArithUint
  import opened CompactSpec

  const WIDTH: nat := 8

  /** Sets a target from its compact form; what does not fit into 256 bits is lost, and reported. */
  method SetCompact(t: BaseUint, nCompact: nat) returns (negative: bool, overflow: bool)
    requires t.pn.Length == WIDTH && nCompact < BASE
    modifies t.pn
    ensures t.Value() == Meant(nCompact) % Pow2(256)
    ensures negative == IsNegative(nCompact) && overflow == Overflows(nCompact)
    ensures !overflow ==> t.Value() == Meant(nCompact)
  {
    hide Pow2;
    WholeWidth();
    WordFits(nCompact);
    OverflowIff(nCompact);
    var nSize := nCompact / SIZE;
    var nWord := nCompact % SIGN;
    if nSize <= 3 {
      DivNotNegative(nWord, Pow2(8 * (3 - nSize)));
      nWord := nWord / Pow2(8 * (3 - nSize));
      t.Assign(nWord);
      SmallWord(nWord);
    } else {
      t.Assign(nWord);
      t.ShiftLeft(8 * (nSize - 3));
    }
    negative := nWord != 0 && nCompact / SIGN % 2 == 1;
    overflow := nWord != 0 && (nSize > 34 || (nWord > 0xff && nSize > 33) || (nWord > 0xffff && nSize > 32));
    if !overflow {
      FitsAlready(Meant(nCompact), Pow2(256));
    }
  }

  lemma WholeWidth()
    ensures B(WIDTH) == Pow2(256)
  {
  }

  lemma SmallWord(word: nat)
    requires word < SIGN
    ensures word % Pow2(256) == word
  {
    Pow2Of32();
    Pow2Grows(24, 256);
    FitsAlready(word, Pow2(256));
  }

  /** The three highest bytes of a number, if it is not looked at as signed. */
  function TopBytes(x: nat, size: nat): nat {
    if size <= 3 then (NotNegative(x, Pow2(8 * (3 - size))); x * Pow2(8 * (3 - size)))
    else DivPositive(x, Pow2(8 * (size - 3)))
  }

  lemma SignlessSize(x: nat)
    ensures var (n, size) := (BitLength(x), (BitLength(x) + 7) / 8);
            ByteSize(x) == if x > 0 && n == 8 * size then size + 1 else size
  {
    BitLengthIs(x);
  }

  /** If the highest bit is where the sign would be, one more byte is needed, and the mantissa loses one. */
  lemma TopBytesAre(x: nat)
    ensures var size := (BitLength(x) + 7) / 8;
            var top := TopBytes(x, size);
            && top < SIZE
            && (top / SIGN % 2 == 1 <==> ByteSize(x) == size + 1)
            && (top / SIGN % 2 == 1 ==> Mantissa(x) == top / 256)
            && (top / SIGN % 2 != 1 ==> ByteSize(x) == size && Mantissa(x) == top)
  {
    hide BitLength, ByteSize, Mantissa, TopBytes;
    var size := (BitLength(x) + 7) / 8;
    SignlessSize(x);
    MantissaFits(x);
    if ByteSize(x) == size {
      AllBytes(x, size);
    } else {
      FullTop(x, size);
      LosesByte(x, size);
    }
  }

  lemma AllBytes(x: nat, size: nat)
    requires ByteSize(x) == size
    ensures Mantissa(x) == TopBytes(x, size)
  {
  }

  lemma FullTop(x: nat, size: nat)
    requires x > 0 && BitLength(x) == 8 * size
    ensures SIGN <= TopBytes(x, size) < SIZE
  {
    BitLengthIs(x);
    Pow2Of32();
    assert Pow2(24) == 2 * Pow2(23);
    if size <= 3 {
      var d := 8 * (3 - size);
      Pow2Add(8 * size, d);
      Pow2Add(8 * size - 1, d);
      hide Pow2, BitLength;
      Scale(x, Pow2(8 * size), Pow2(d));
      Scale(Pow2(8 * size - 1), x, Pow2(d));
    } else {
      var d := 8 * (size - 3);
      Pow2Add(24, d);
      Pow2Add(23, d);
      hide Pow2, BitLength;
      DivBelow(x, Pow2(d), Pow2(24));
      DivAbove(x, Pow2(d), Pow2(23));
    }
  }

  lemma DivAbove(x: nat, p: nat, m: nat)
    requires p > 0 && m * p <= x
    ensures m <= x / p
  {
    assert x == x / p * p + x % p;
    if x / p < m {
      Scale(x / p, m, p);
    }
  }

  lemma LosesByte(x: nat, size: nat)
    requires ByteSize(x) == size + 1
    ensures Mantissa(x) == TopBytes(x, size) / 256
  {
    Pow2Of32();
    if size < 3 {
      Pow2Add(8, 8 * (3 - size) - 8);
      Associate(x, 256, Pow2(8 * (3 - size) - 8));
      NotNegative(x, Pow2(8 * (3 - size) - 8));
    } else if size > 3 {
      Pow2Add(8 * (size - 3), 8);
      hide Pow2;
      DivDiv(x, Pow2(8 * (size - 3)), 256);
    } else {
      assert Pow2(0) == 1;
    }
  }

  lemma DivDiv(x: nat, p: nat, q: nat)
    requires p > 0 && q > 0
    ensures p * q > 0 && x / (p * q) == x / p / q
  {
    var a := x / p;
    assert x == a * p + x % p && a == a / q * q + a % q;
    Distribute(a / q * q, a % q, p);
    Scale(a % q, q, p);
    NotNegative(a % q, p);
    Associate(a / q, q, p);
    DivModIs(x, a / q, a % q * p + x % p, p * q);
  }

  lemma JoinParts(mantissa: nat, size: nat)
    requires mantissa < SIGN && size < 256
    ensures Or(mantissa, size * SIZE) == mantissa + size * SIZE
    ensures Or(mantissa + size * SIZE, SIGN) == mantissa + size * SIZE + SIGN
  {
    Pow2Of32();
    OrAdds(mantissa, size, 24);
    SignIsFree(mantissa, size);
  }

  lemma SignIsFree(mantissa: nat, size: nat)
    requires mantissa < SIGN
    ensures Or(mantissa + size * SIZE, SIGN) == mantissa + size * SIZE + SIGN
  {
    Pow2Of32();
    assert Pow2(24) == 2 * Pow2(23);
    hide Or;
    OrShifted(mantissa, 2 * size, 1, 23);
    OrZeros(size);
  }

  /** Or-ing in multiples of a power of two leaves what is below it alone. */
  lemma {:induction false} OrShifted(low: nat, a: nat, b: nat, r: nat)
    requires low < Pow2(r)
    ensures Or(low + a * Pow2(r), b * Pow2(r)) == low + Or(a, b) * Pow2(r)
    decreases r
  {
    if r > 0 {
      var p := Pow2(r - 1);
      Associate(a, 2, p);
      Associate(b, 2, p);
      Associate(Or(a, b), 2, p);
      NotNegative(a, p);
      NotNegative(b, p);
      NotNegative(Or(a, b), p);
      OrShifted(low / 2, a, b, r - 1);
      assert (low + a * Pow2(r)) / 2 == low / 2 + a * p && b * Pow2(r) / 2 == b * p;
      if b * p == 0 || low + a * Pow2(r) == 0 {
        OrNothing(low / 2 + a * p, b * p);
      }
    }
  }

  lemma OrNothing(a: nat, b: nat)
    ensures a == 0 ==> Or(a, b) == b
    ensures b == 0 ==> Or(a, b) == a
  {
  }

  lemma OrZeros(size: nat)
    ensures Or(2 * size, 1) == 2 * size + 1
  {
  }

  /** A shift in 64 bits, of which 32 are kept. */
  method ShiftedInto32(low: nat, shift: nat) returns (n: nat)
    requires low * Pow2(shift) < SIZE
    ensures n == low * Pow2(shift)
  {
    hide Pow2;
    NotNegative(low, Pow2(shift));
    FitsAlready(low * Pow2(shift), BASE * BASE);
    FitsAlready(low * Pow2(shift), BASE);
    n := low * Pow2(shift) % (BASE * BASE) % BASE;
  }

  /** The three highest bytes, by shifting to the left or to the right. */
  method GetTopBytes(t: BaseUint, nSize: nat) returns (top: nat)
    requires t.pn.Length == WIDTH && TopBytes(t.Value(), nSize) < SIZE && (nSize <= 3 ==> t.Value() < BASE)
    ensures top == TopBytes(t.Value(), nSize)
  {
    hide Pow2, Val, B;
    if nSize <= 3 {
      var low := t.GetLow64();
      FitsAlready(t.Value(), BASE * BASE);
      top := ShiftedInto32(low, 8 * (3 - nSize));
    } else {
      var bn := new BaseUint.Copy(t);
      bn.ShiftRight(8 * (nSize - 3));
      var low := bn.GetLow64();
      top := low % BASE;
    }
  }

  /** The compact form of a target. */
  method GetCompact(t: BaseUint, fNegative: bool) returns (nCompact: nat)
    requires t.pn.Length == WIDTH
    ensures nCompact == Compact(t.Value(), fNegative)
  {
    hide Pow2, Or, BitLength, Mantissa, ByteSize, Val, TopBytes;
    ghost var x := t.Value();
    var bits := t.Bits();
    BitsAreLength(x, bits);
    TopBytesAre(x);
    MantissaFits(x);
    var nSize := (bits + 7) / 8;
    if nSize <= 3 {
      LowIsAll(x, nSize);
    }
    nCompact := GetTopBytes(t, nSize);
    if nCompact / SIGN % 2 == 1 {
      nCompact := nCompact / 256;
      nSize := nSize + 1;
    }
    assert nCompact < SIGN && nSize < 256;
    JoinParts(nCompact, nSize);
    nCompact := Or(nCompact, nSize * SIZE);
    if fNegative && nCompact % SIGN != 0 {
      nCompact := Or(nCompact, SIGN);
    }
  }

  lemma BitsAreLength(x: nat, bits: nat)
    requires bits == 0 <==> x == 0
    requires bits > 0 ==> Pow2(bits - 1) <= x < Pow2(bits)
    ensures bits == BitLength(x)
  {
    if bits > 0 {
      BitLengthUnique(x, bits);
    }
  }

  lemma LowIsAll(x: nat, size: nat)
    requires size == (BitLength(x) + 7) / 8 <= 3
    ensures x < BASE
  {
    BitLengthIs(x);
    Pow2Of32();
    Pow2Grows(BitLength(x), 24);
  }
}
