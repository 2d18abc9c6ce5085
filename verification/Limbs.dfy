/** Numbers as sequences of 32-bit limbs, lowest first. */
module Limbs {
  import opened Common

  const BASE: nat := 0x1_0000_0000

  type Limb = n: int | 0 <= n < 0x1_0000_0000

  // ---------- Powers of two ----------

  lemma {:induction false} Pow2Add(a: nat, b: nat)
    ensures Pow2(a + b) == Pow2(a) * Pow2(b)
  {
    if a > 0 {
      Pow2Add(a - 1, b);
      assert 2 * (Pow2(a - 1) * Pow2(b)) == 2 * Pow2(a - 1) * Pow2(b);
    }
  }

  lemma {:induction false} Pow2Grows(a: nat, b: nat)
    requires a <= b
    ensures Pow2(a) <= Pow2(b) && (a < b ==> 2 * Pow2(a) <= Pow2(b))
  {
    if a < b {
      Pow2Grows(a, b - 1);
    }
  }

  lemma Pow2Of32()
    ensures Pow2(32) == BASE && Pow2(31) == 0x8000_0000 && Pow2(8) == 256 && Pow2(16) == 0x1_0000
            && Pow2(24) == 0x100_0000
  {
    assert Pow2(8) == 256;
    Pow2Add(8, 8);
    Pow2Add(16, 8);
    Pow2Add(16, 16);
    assert Pow2(32) == 2 * Pow2(31);
  }

  /** The weight of limb `i`. */
  function B(i: nat): (p: nat)
    ensures p > 0
  {
    Pow2(32 * i)
  }

  lemma BNext(i: nat)
    ensures B(i + 1) == BASE * B(i)
  {
    Pow2Of32();
    Pow2Add(32, 32 * i);
  }

  // ---------- Arithmetic ----------

  lemma Associate(a: int, b: int, c: int)
    ensures a * (b * c) == a * b * c && a * (b * c) == b * (a * c)
  {
  }

  lemma {:induction false} Scale(a: int, b: int, c: nat)
    requires a <= b
    ensures a * c <= b * c && (a < b && c > 0 ==> a * c + c <= b * c)
  {
    Distribute(b - a, a, c);
    if a < b {
      Distribute(b - a - 1, 1, c);
      NotNegative(b - a - 1, c);
    } else {
      assert a == b;
    }
  }

  lemma NotNegative(a: nat, b: nat)
    ensures a * b >= 0
  {
  }

  /** Quotient and remainder are what they should be. */
  lemma {:induction false} DivModIs(x: int, q: int, r: int, m: nat)
    requires x == q * m + r && 0 <= r < m
    ensures x / m == q && x % m == r
  {
    var d := x / m;
    assert x == d * m + x % m;
    if d < q {
      Scale(d, q, m);
    } else if d > q {
      Scale(q, d, m);
    }
  }

  /** Carrying what does not fit into a limb. */
  lemma Carry(n: nat, i: nat)
    ensures n * B(i) == (n % BASE) * B(i) + (n / BASE) * B(i + 1)
  {
    BNext(i);
    Distribute(n % BASE, (n / BASE) * BASE, B(i));
    Associate(n / BASE, BASE, B(i));
    assert n == n % BASE + (n / BASE) * BASE;
  }

  // ---------- Values ----------

  function Val(s: seq<Limb>): nat {
    if s == [] then 0 else
      NotNegative(s[|s| - 1], B(|s| - 1));
      Val(s[..|s| - 1]) + s[|s| - 1] * B(|s| - 1)
  }

  lemma ValSnoc(s: seq<Limb>, i: nat)
    requires i < |s|
    ensures Val(s[..i + 1]) == Val(s[..i]) + s[i] * B(i)
  {
    assert s[..i + 1][..i] == s[..i];
  }

  lemma {:induction false} ValBound(s: seq<Limb>)
    ensures Val(s) < B(|s|)
  {
    if s != [] {
      var i := |s| - 1;
      ValBound(s[..i]);
      BNext(i);
      Scale(s[i], BASE - 1, B(i));
      Distribute(BASE - 1, 1, B(i));
    }
  }

  lemma {:induction false} ValUpdate(s: seq<Limb>, i: nat, v: Limb)
    requires i < |s|
    ensures Val(s[i := v]) == Val(s) + (v - s[i]) * B(i)
  {
    var last := |s| - 1;
    var t := s[i := v];
    if i < last {
      ValUpdate(s[..last], i, v);
      assert t[..last] == s[..last][i := v];
    } else {
      assert t[..last] == s[..last];
      Distribute(v, s[i], B(i));
    }
  }

  lemma {:induction false} ValZero(s: seq<Limb>)
    requires forall i :: 0 <= i < |s| ==> s[i] == 0
    ensures Val(s) == 0
  {
    if s != [] {
      ValZero(s[..|s| - 1]);
    }
  }

  lemma {:induction false} ValSplit(s: seq<Limb>, k: nat)
    requires k <= |s|
    ensures Val(s) == Val(s[..k]) + B(k) * Val(s[k..])
  {
    if k < |s| {
      var i := |s| - 1;
      ValSplit(s[..i], k);
      assert s[..i][..k] == s[..k] && s[..i][k..] == s[k..][..i - k];
      Pow2Add(32 * k, 32 * (i - k));
      Distribute(Val(s[k..i]), s[i] * B(i - k), B(k));
      Associate(B(k), s[i], B(i - k));
      assert s[k..][..i - k] == s[k..i];
    } else {
      assert s[..k] == s && s[k..] == [];
    }
  }

  // ---------- Bits ----------

  /** Bitwise or. */
  function Or(a: nat, b: nat): nat
    decreases a + b
  {
    if a == 0 then b else if b == 0 then a else
      (if a % 2 == 1 || b % 2 == 1 then 1 else 0) + 2 * Or(a / 2, b / 2)
  }

  /** If no bit is in both, it is the same as adding. */
  lemma {:induction false} OrAdds(low: nat, high: nat, r: nat)
    requires low < Pow2(r)
    ensures Or(low, high * Pow2(r)) == low + high * Pow2(r) == Or(high * Pow2(r), low)
    decreases r
  {
    NotNegative(high, Pow2(r));
    if r > 0 {
      var h := high * Pow2(r - 1);
      NotNegative(high, Pow2(r - 1));
      Associate(high, 2, Pow2(r - 1));
      assert high * Pow2(r) == 2 * h;
      OrAdds(low / 2, high, r - 1);
    }
  }
}
