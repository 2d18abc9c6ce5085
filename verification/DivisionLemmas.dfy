/** Comparing limbs, finding the highest bit, and long division bit by bit. */
module DivisionLemmas {
  import opened Common
  import opened Limbs
  import opened ShiftLemmas

  // ---------- Comparing ----------

  /** The highest limb that differs decides. */
  lemma HigherLimbDecides(x: seq<Limb>, y: seq<Limb>, i: nat)
    requires |x| == |y| && i < |x| && x[i + 1..] == y[i + 1..] && x[i] < y[i]
    ensures Val(x) < Val(y)
  {
    hide Val, B;
    ValSplit(x, i + 1);
    ValSplit(y, i + 1);
    ValSnoc(x, i);
    ValSnoc(y, i);
    ValBound(x[..i]);
    Scale(x[i], y[i], B(i));
  }

  // ---------- The highest bit ----------

  /** Bit `b` of a limb. */
  predicate HasBit(x: Limb, b: nat) { x / Pow2(b) % 2 == 1 }

  lemma BitAbove(x: Limb, b: nat)
    requires x < Pow2(b + 1)
    ensures if HasBit(x, b) then Pow2(b) <= x else x < Pow2(b)
  {
    var p := Pow2(b);
    assert Pow2(b + 1) == 2 * p;
    hide Pow2;
    if x < p {
      DivModIs(x, 0, x, p);
    } else {
      DivModIs(x, 1, x - p, p);
    }
  }

  /** The highest bit of the highest limb that is not zero is the highest bit of all. */
  lemma HighestBit(x: seq<Limb>, pos: nat, b: nat)
    requires pos < |x| && (forall k :: pos < k < |x| ==> x[k] == 0) && Pow2(b) <= x[pos] as nat < Pow2(b + 1)
    ensures Pow2(32 * pos + b) <= Val(x) < Pow2(32 * pos + b + 1)
  {
    ValSplit(x, pos + 1);
    ValZero(x[pos + 1..]);
    ValSnoc(x, pos);
    ValBound(x[..pos]);
    Pow2Add(b, 32 * pos);
    Pow2Add(b + 1, 32 * pos);
    hide Val, Pow2;
    Scale(Pow2(b), x[pos], B(pos));
    Scale(x[pos], Pow2(b + 1), B(pos));
  }

  // ---------- Long division ----------

  /** The lowest `k` bits are not set. */
  ghost predicate Ends(x: nat, k: nat) { exists c :: x == Times(c, Pow2(k)) }

  function Times(c: nat, p: nat): nat { NotNegative(c, p); c * p }

  /** The quotient bits below `n` are not set yet. */
  ghost predicate LowBitsClear(q: seq<Limb>, n: nat) {
    forall m :: 0 <= m < |q| ==> if 32 * (m + 1) <= n then q[m] == 0 else 32 * m < n ==> Ends(q[m], n - 32 * m)
  }

  lemma SetBit(q: seq<Limb>, shift: nat, z: seq<Limb>)
    requires shift < 32 * |q| && LowBitsClear(q, shift + 1) && Pow2(shift % 32) < BASE
    requires z == q[shift / 32 := OrLimb(q[shift / 32], Pow2(shift % 32))]
    ensures LowBitsClear(z, shift) && Val(z) == Val(q) + Pow2(shift)
  {
    hide Val, OrLimb, Or, Pow2, B, Times;
    var m, b := shift / 32, shift % 32;
    var c := LowBits(q, shift, m, b);
    BitOr(c, b);
    ValUpdate(q, m, z[m]);
    Pow2Add(b, 32 * m);
    WeightIs(m);
    Distribute(z[m], q[m], B(m));
    ClearLower(q, shift);
    EndsWith(2 * c + 1, b);
  }

  lemma WeightIs(m: nat)
    ensures B(m) == Pow2(32 * m)
  {
  }

  lemma EndsWith(c: nat, k: nat)
    ensures c * Pow2(k) >= 0 && Ends(c * Pow2(k), k)
  {
    assert Times(c, Pow2(k)) == c * Pow2(k);
  }

  /** The limb that the next bit goes to ends in zeros up to and including that bit. */
  lemma LowBits(q: seq<Limb>, shift: nat, m: nat, b: nat) returns (c: nat)
    requires m < |q| && shift == 32 * m + b && b < 32 && LowBitsClear(q, shift + 1)
    ensures q[m] as nat == c * Pow2(b + 1) == 2 * c * Pow2(b)
  {
    if b == 31 {
      c := 0;
    } else {
      assert Ends(q[m], b + 1);
      c :| q[m] as nat == Times(c, Pow2(b + 1));
    }
    Associate(c, 2, Pow2(b));
  }

  lemma BitOr(c: nat, b: nat)
    requires b < 32 && 2 * c * Pow2(b) < BASE && Pow2(b) < BASE
    ensures 2 * c * Pow2(b) >= 0
    ensures OrLimb(2 * c * Pow2(b), Pow2(b)) as nat == 2 * c * Pow2(b) + Pow2(b) == (2 * c + 1) * Pow2(b)
  {
    hide Or;
    NotNegative(2 * c, Pow2(b));
    Pow2Grows(b, b + 1);
    Associate(c, 2, Pow2(b));
    OrAdds(Pow2(b), c, b + 1);
    Distribute(2 * c, 1, Pow2(b));
  }

  lemma ClearLower(q: seq<Limb>, n: nat)
    requires LowBitsClear(q, n + 1)
    ensures LowBitsClear(q, n)
  {
    forall m | 0 <= m < |q| && 32 * m < n < 32 * (m + 1)
      ensures Ends(q[m], n - 32 * m)
    {
      var c := LowBits(q, n, m, n - 32 * m);
      EndsWith(2 * c, n - 32 * m);
    }
  }

  lemma NothingSet(q: seq<Limb>, n: nat)
    requires forall m :: 0 <= m < |q| ==> q[m] == 0
    ensures LowBitsClear(q, n) && Val(q) == 0
  {
    ValZero(q);
    forall m | 0 <= m < |q| && 32 * m < n
      ensures Ends(q[m], n - 32 * m)
    {
      EndsWith(0, n - 32 * m);
    }
  }

  /** While dividing: so much is done, and what is left is below twice the divisor as it is shifted now. */
  ghost predicate Dividing(a: nat, b: nat, q: nat, num: nat, shift: nat) {
    a == q * b + num && num < 2 * (b * Pow2(shift))
  }

  /** One bit of the quotient. */
  lemma DivideStep(a: nat, b: nat, q: nat, num: nat, shift: nat, q2: nat, num2: nat)
    requires Dividing(a, b, q, num, shift)
    requires if num >= b * Pow2(shift) then q2 == q + Pow2(shift) && num2 == num - b * Pow2(shift)
             else q2 == q && num2 == num
    ensures num2 < b * Pow2(shift) && a == q2 * b + num2
    ensures shift > 0 ==> Dividing(a, b, q2, num2, shift - 1)
  {
    Distribute(q, Pow2(shift), b);
    if shift > 0 {
      assert b * Pow2(shift) == 2 * (b * Pow2(shift - 1)) by { Associate(b, 2, Pow2(shift - 1)); }
    }
  }

  /** Shifting the divisor back by one bit. */
  lemma ShiftBack(b: nat, shift: nat)
    requires shift > 0
    ensures (b * Pow2(shift)) / 2 == b * Pow2(shift - 1)
  {
    Associate(b, 2, Pow2(shift - 1));
    assert b * Pow2(shift) == 2 * (b * Pow2(shift - 1));
  }

  lemma Divided(a: nat, b: nat, q: nat, num: nat)
    requires b > 0 && a == q * b + num && num < b
    ensures q == a / b && num == a % b
  {
    DivModIs(a, q, num, b);
  }

  /** Aligned with the number to be divided, the divisor fits, and is more than half of it. */
  lemma Aligned(a: nat, b: nat, n: nat, d: nat, w: nat)
    requires 0 < d <= n <= 32 * w && Pow2(d - 1) <= b < Pow2(d) && a < Pow2(n)
    ensures b * Pow2(n - d) < B(w) && b * Pow2(n - d) >= 0 && a < 2 * (b * Pow2(n - d))
  {
    Pow2Add(d, n - d);
    Pow2Add(d - 1, n - d);
    Pow2Grows(n, 32 * w);
    NotNegative(b, Pow2(n - d));
    assert Pow2(n) == 2 * Pow2(n - 1);
    hide Pow2;
    Scale(b, Pow2(d), Pow2(n - d));
    Scale(Pow2(d - 1), b, Pow2(n - d));
  }
}
