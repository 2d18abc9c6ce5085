/** Strings of base 58 digits and the bytes they stand for. */
module Base58Spec {
  import Limbs

  // ---------- Powers ----------

  function Pow(b: nat, n: nat): (p: nat)
    ensures b > 0 ==> p > 0
  {
    if n == 0 then 1 else Times(b, Pow(b, n - 1))
  }

  function Times(a: nat, b: nat): (p: nat)
    ensures p == a * b
    ensures a > 0 && b > 0 ==> p > 0
  {
    TimesIsNat(a, b);
    a * b
  }

  lemma TimesIsNat(a: nat, b: nat)
    ensures a * b >= 0 && (a > 0 && b > 0 ==> a * b > 0)
  {
  }

  lemma Regroup(a: nat, b: nat, c: nat)
    ensures a * (b * c) == a * b * c
  {
  }

  lemma {:induction false} PowAdd(b: nat, m: nat, n: nat)
    ensures Pow(b, m + n) == Pow(b, m) * Pow(b, n)
  {
    if m > 0 {
      PowAdd(b, m - 1, n);
      Regroup(b, Pow(b, m - 1), Pow(b, n));
    }
  }

  lemma {:induction false} PowPow(b: nat, m: nat, n: nat)
    ensures Pow(Pow(b, m), n) == Pow(b, Times(m, n))
  {
    if n > 0 {
      PowPow(b, m, n - 1);
      PowAdd(b, m, Times(m, n - 1));
      assert m + m * (n - 1) == m * n;
    }
  }

  lemma ScaleBoth(a: nat, b: nat, c: nat, d: nat)
    requires a <= b && c <= d
    ensures a * c <= b * d && (a < b && c > 0 ==> a * c < b * d)
  {
    assert b * d - a * c == (b - a) * c + b * (d - c);
    TimesIsNat(b - a, c);
    TimesIsNat(b, d - c);
  }

  lemma {:induction false} PowGrows(x: nat, y: nat, n: nat)
    requires x <= y
    ensures Pow(x, n) <= Pow(y, n)
  {
    if n > 0 {
      PowGrows(x, y, n - 1);
      ScaleBoth(x, y, Pow(x, n - 1), Pow(y, n - 1));
    }
  }

  lemma {:induction false} PowGrowsMore(b: nat, m: nat, n: nat)
    requires b > 1 && m <= n
    ensures Pow(b, m) <= Pow(b, n) && (m < n ==> Pow(b, m) < Pow(b, n))
  {
    if m < n {
      PowGrowsMore(b, m, n - 1);
      ScaleBoth(2, b, Pow(b, n - 1), Pow(b, n - 1));
    }
  }

  /** If `p` digits of base `a` are worth at least `q` digits of base `b`, more than `p / q` times as many digits
      always suffice. */
  lemma EnoughDigits(a: nat, p: nat, b: nat, q: nat, k: nat, n: nat)
    requires a > 1 && b > 0 && Pow(a, p) >= Pow(b, q) && q * k > p * n
    ensures Pow(a, k) > Pow(b, n)
  {
    if Pow(a, k) <= Pow(b, n) {
      PowGrows(Pow(a, k), Pow(b, n), q);
      PowGrows(Pow(b, q), Pow(a, p), n);
      PowPow(a, k, q);
      PowPow(b, n, q);
      PowPow(a, p, n);
      PowPow(b, q, n);
      assert k * q == q * k && n * q == q * n;
      PowGrowsMore(a, p * n, q * k);
      assert false;
    }
  }

  lemma ElevenForEight()
    ensures Pow(58, 11) >= Pow(256, 8)
  {
  }

  lemma SixteenOf58()
    ensures Pow(58, 16) == 16400152899115243850138976256 && Pow(58, 7) == 2207984167552
  {
    assert Pow(58, 8) == 128063081718016;
    PowAdd(58, 8, 8);
  }

  lemma SeventyOneOf58()
    ensures Pow(58, 71) <
            20282409603651670423947251286016 * 20282409603651670423947251286016
            * (20282409603651670423947251286016 * 20282409603651670423947251286016)
  {
    hide Pow;
    SixteenOf58();
    PowAdd(58, 16, 16);
    PowAdd(58, 32, 32);
    PowAdd(58, 64, 7);
  }

  lemma FiftyTwoOf256()
    ensures Pow(256, 52) ==
            20282409603651670423947251286016 * 20282409603651670423947251286016
            * (20282409603651670423947251286016 * 20282409603651670423947251286016)
  {
    assert Pow(256, 13) == 20282409603651670423947251286016;
    PowAdd(256, 13, 13);
    PowAdd(256, 26, 26);
  }

  lemma FiftyTwoForSeventyOne()
    ensures Pow(256, 52) >= Pow(58, 71)
  {
    hide Pow;
    SeventyOneOf58();
    FiftyTwoOf256();
  }

  /** The buffer for the base 58 digits of `n` bytes is large enough. */
  lemma EncodeBufferSuffices(n: nat)
    ensures Pow(58, n * 138 / 100 + 1) > Pow(256, n)
  {
    ElevenForEight();
    hide Pow;
    EnoughDigits(58, 11, 256, 8, n * 138 / 100 + 1, n);
  }

  /** The buffer for the bytes of `n` base 58 digits is large enough. */
  lemma DecodeBufferSuffices(n: nat)
    ensures Pow(256, n * 733 / 1000 + 1) > Pow(58, n)
  {
    FiftyTwoForSeventyOne();
    hide Pow;
    EnoughDigits(256, 52, 58, 71, n * 733 / 1000 + 1, n);
  }

  // ---------- Numbers as digits, highest first ----------

  function Num(digits: seq<nat>, base: nat): nat {
    if digits == [] then 0
    else Times(digits[0], Pow(base, |digits| - 1)) + Num(digits[1..], base)
  }

  predicate Digits(digits: seq<nat>, base: nat) { forall k :: 0 <= k < |digits| ==> digits[k] < base }

  lemma DivLess(n: nat, base: nat)
    requires n > 0 && base > 1
    ensures 0 <= n / base < n && n == n / base * base + n % base
  {
    var q := n / base;
    assert n == q * base + n % base;
    if q > 0 {
      Limbs.Scale(2, base, q);
    } else if q < 0 {
      Limbs.Scale(q, -1, base);
    }
  }

  /** The digits of a number, without leading zeros. */
  function Rep(n: nat, base: nat): (r: seq<nat>)
    requires base > 1
    ensures Digits(r, base)
    decreases n
  {
    if n == 0 then [] else DivLess(n, base); Rep(n / base, base) + [n % base]
  }

  lemma {:induction false} NumSnoc(digits: seq<nat>, d: nat, base: nat)
    ensures Num(digits + [d], base) == Num(digits, base) * base + d
  {
    if digits != [] {
      NumSnoc(digits[1..], d, base);
      assert (digits + [d])[1..] == digits[1..] + [d];
      SnocWeight(digits[0], base, Pow(base, |digits| - 1), Num(digits[1..], base));
    } else {
      assert (digits + [d])[1..] == [];
    }
  }

  lemma SnocWeight(a: nat, base: nat, p: nat, rest: nat)
    ensures a * (base * p) + rest * base == (a * p + rest) * base
  {
  }

  lemma {:induction false} NumBound(digits: seq<nat>, base: nat)
    requires base > 0 && Digits(digits, base)
    ensures Num(digits, base) < Pow(base, |digits|)
  {
    if digits != [] {
      NumBound(digits[1..], base);
      BoundWeight(digits[0], base, Pow(base, |digits| - 1));
    }
  }

  lemma BoundWeight(a: nat, base: nat, p: nat)
    requires a < base
    ensures a * p + p <= base * p
  {
    TimesIsNat(base - 1 - a, p);
    assert base * p - (a * p + p) == (base - 1 - a) * p;
  }

  lemma {:induction false} NumOfRep(n: nat, base: nat)
    requires base > 1
    ensures Num(Rep(n, base), base) == n
    ensures n > 0 ==> Rep(n, base) != [] && Rep(n, base)[0] != 0
    decreases n
  {
    if n > 0 {
      DivLess(n, base);
      NumOfRep(n / base, base);
      NumSnoc(Rep(n / base, base), n % base, base);
    }
  }

  /** Leading zeros aside, digits are what their number is written as. */
  lemma {:induction false} RepOfNum(digits: seq<nat>, base: nat)
    requires base > 1 && Digits(digits, base) && (digits != [] ==> digits[0] != 0)
    ensures Rep(Num(digits, base), base) == digits
    decreases |digits|
  {
    if digits != [] {
      var init, d := digits[..|digits| - 1], digits[|digits| - 1];
      assert digits == init + [d];
      NumSnoc(init, d, base);
      QuotRem(Num(init, base), d, base);
      RepOfNum(init, base);
      if init == [] {
        assert Rep(0, base) == [];
      } else {
        NumIsPositive(init, base);
      }
    }
  }

  lemma QuotRem(n: nat, d: nat, base: nat)
    requires d < base
    ensures (n * base + d) / base == n && (n * base + d) % base == d
  {
    Limbs.DivModIs(n * base + d, n, d, base);
  }

  lemma NumIsPositive(digits: seq<nat>, base: nat)
    requires base > 1 && digits != [] && digits[0] != 0
    ensures Num(digits, base) > 0
  {
  }

  /** How many leading zeros there are. */
  function Zeros(digits: seq<nat>): (z: nat)
    ensures z <= |digits| && (forall k :: 0 <= k < z ==> digits[k] == 0)
    ensures z < |digits| ==> digits[z] != 0
  {
    if digits != [] && digits[0] == 0 then 1 + Zeros(digits[1..]) else 0
  }

  lemma {:induction false} NumSkipsZeros(digits: seq<nat>, z: nat, base: nat)
    requires z <= |digits| && forall k :: 0 <= k < z ==> digits[k] == 0
    ensures Num(digits[z..], base) == Num(digits, base)
    decreases z
  {
    if z > 0 {
      NumSkipsZeros(digits[1..], z - 1, base);
      assert digits[1..][z - 1..] == digits[z..];
    } else {
      assert digits[0..] == digits;
    }
  }

  /** A buffer without its leading zeros. */
  lemma StrippedBuffer(digits: seq<nat>, base: nat)
    requires base > 1 && Digits(digits, base)
    ensures digits[Zeros(digits)..] == Rep(Num(digits, base), base)
  {
    var z := Zeros(digits);
    NumSkipsZeros(digits, z, base);
    RepOfNum(digits[z..], base);
  }
}
