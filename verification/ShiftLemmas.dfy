/** What shifting limbs by whole limbs and by bits adds up to. */
module ShiftLemmas {
  import opened Common
  import opened Limbs

  // ---------- One limb ----------

  /** What a limb shifted left by `r` bits leaves to the next limb, and what it keeps. */
  function High(x: Limb, r: nat): nat
    requires r <= 32
  {
    DivNotNegative(x, Pow2(32 - r));
    x / Pow2(32 - r)
  }

  lemma DivNotNegative(a: nat, b: nat)
    requires b > 0
    ensures 0 <= a / b <= a
  {
    if a / b > a {
      Scale(a + 1, a / b, b);
      Scale(1, b, a);
    }
  }

  function Low(x: Limb, r: nat): Limb { NotNegative(x, Pow2(r)); (x * Pow2(r)) % BASE }

  /** Or-ing into a limb; no bits are lost. */
  function OrLimb(a: Limb, b: Limb): Limb {
    Pow2Of32();
    OrFits(a, b, 32);
    Or(a, b)
  }

  lemma {:induction false} OrFits(a: nat, b: nat, n: nat)
    requires a < Pow2(n) && b < Pow2(n)
    ensures Or(a, b) < Pow2(n)
    decreases n
  {
    if n > 0 && a > 0 && b > 0 {
      OrFits(a / 2, b / 2, n - 1);
    }
  }

  lemma DivSmall(x: nat, q: nat, p: nat)
    requires 0 < q && x < p * q
    ensures x / q < p
  {
    if x / q >= p {
      Scale(p, x / q, q);
    }
  }

  lemma SplitLimb(x: nat, q: nat, p: nat)
    requires 0 < q && 0 < p && q * p == BASE && x < BASE
    ensures x / q < p && (x * p) % BASE == (x % q) * p && x * p == (x / q) * BASE + (x % q) * p
  {
    var h, y := x / q, x % q;
    DivSmall(x, q, p);
    assert x == h * q + y;
    Distribute(h * q, y, p);
    Associate(h, q, p);
    Scale(y, q, p);
    NotNegative(y, p);
    DivModIs(x * p, h, y * p, BASE);
  }

  /** Both parts together are the shifted limb, and the part that is kept ends in zeros. */
  lemma ShiftLimb(x: Limb, r: nat)
    requires r <= 32
    ensures High(x, r) < Pow2(r) && Low(x, r) == (x % Pow2(32 - r)) * Pow2(r)
    ensures x * Pow2(r) == High(x, r) * BASE + Low(x, r)
    ensures r < 32 ==> High(x, r) < BASE
  {
    Pow2Of32();
    Pow2Add(32 - r, r);
    Pow2Grows(r, 32);
    SplitLimb(x, Pow2(32 - r), Pow2(r));
  }

  lemma OrLow(h: Limb, x: Limb, r: nat)
    requires r <= 32 && h < Pow2(r)
    ensures OrLimb(h, Low(x, r)) == h + Low(x, r)
  {
    ShiftLimb(x, r);
    OrAdds(h, x % Pow2(32 - r), r);
  }

  lemma OrZero(x: Limb)
    ensures OrLimb(0, x) == x
  {
  }

  // ---------- Shifting left ----------

  /** The limbs written so far when shifting left by `k` limbs and `r` bits: `i` limbs are done, and what does not fit
      is dropped. */
  ghost predicate ShiftingLeft(x: seq<Limb>, z: seq<Limb>, k: nat, r: nat, i: nat, drop: nat) {
    && |z| == |x| && r < 32 && i <= |x| && k < |x|
    && (forall m :: i + k < m < |x| ==> z[m] == 0)
    && (i + k < |x| ==> z[i + k] == (if i == 0 then 0 else High(x[i - 1], r)) && drop == 0)
    && Val(z) + drop * B(|x|) == Val(x[..if i + k < |x| then i else |x| - k]) * Pow2(r) * B(k)
  }

  lemma ShiftLeftStarts(x: seq<Limb>, z: seq<Limb>, k: nat, r: nat)
    requires |z| == |x| && r < 32 && k < |x| && Val(z) == 0 && forall m :: 0 <= m < |z| ==> z[m] == 0
    ensures ShiftingLeft(x, z, k, r, 0, 0)
  {
    assert x[..0] == [];
  }

  lemma LeftWeight(x: seq<Limb>, k: nat, r: nat, i: nat)
    requires i < |x| && r < 32
    ensures Val(x[..i + 1]) * Pow2(r) * B(k) ==
            Val(x[..i]) * Pow2(r) * B(k) + High(x[i], r) * B(i + k + 1) + Low(x[i], r) * B(i + k)
  {
    hide Val, B, High, Low;
    ValSnoc(x, i);
    ShiftLimb(x[i], r);
    BNext(i + k);
    BAdd(i, k);
    LeftWeightSum(Val(x[..i]), x[i], Pow2(r), B(i), B(k), High(x[i], r), Low(x[i], r), B(i + k));
  }

  lemma BAdd(i: nat, k: nat)
    ensures B(i + k) == B(i) * B(k)
  {
    Pow2Add(32 * i, 32 * k);
  }

  lemma LeftWeightSum(v: nat, a: nat, p: nat, bi: nat, bk: nat, h: nat, l: nat, bik: nat)
    requires a * p == h * BASE + l && bik == bi * bk
    ensures (v + a * bi) * p * bk == v * p * bk + h * (BASE * bik) + l * bik
  {
    Distribute(v, a * bi, p);
    Distribute(v * p, a * bi * p, bk);
    assert a * bi * p * bk == a * p * bik by {
      Associate(a, bi, p);
      Associate(a, p, bi);
      Associate(a * p, bi, bk);
    }
    Distribute(h * BASE, l, bik);
    Associate(h, BASE, bik);
  }

  lemma LeftWithin(x: seq<Limb>, z: seq<Limb>, k: nat, r: nat, i: nat, drop: nat, z2: seq<Limb>)
    requires ShiftingLeft(x, z, k, r, i, drop) && i + k + 1 < |x|
    requires High(x[i], r) < BASE && z[i + k] + Low(x[i], r) < BASE
    requires z2 == z[i + k + 1 := High(x[i], r) as Limb][i + k := (z[i + k] as nat + Low(x[i], r)) as Limb]
    ensures ShiftingLeft(x, z2, k, r, i + 1, 0)
  {
    hide Val, B, High, Low;
    var z1 := z[i + k + 1 := High(x[i], r) as Limb];
    ValUpdate(z, i + k + 1, High(x[i], r));
    ValUpdate(z1, i + k, z[i + k] as nat + Low(x[i], r));
    LeftWeight(x, k, r, i);
    Distribute(High(x[i], r), 0, B(i + k + 1));
  }

  lemma LeftAtTop(x: seq<Limb>, z: seq<Limb>, k: nat, r: nat, i: nat, drop: nat, z2: seq<Limb>)
    requires ShiftingLeft(x, z, k, r, i, drop) && i + k + 1 == |x|
    requires z[i + k] + Low(x[i], r) < BASE
    requires z2 == z[i + k := (z[i + k] as nat + Low(x[i], r)) as Limb]
    ensures ShiftingLeft(x, z2, k, r, i + 1, High(x[i], r))
  {
    hide Val, B, High, Low;
    ValUpdate(z, i + k, z[i + k] as nat + Low(x[i], r));
    LeftWeight(x, k, r, i);
  }

  lemma LeftBeyond(x: seq<Limb>, z: seq<Limb>, k: nat, r: nat, i: nat, drop: nat)
    requires ShiftingLeft(x, z, k, r, i, drop) && i < |x| && i + k >= |x|
    ensures ShiftingLeft(x, z, k, r, i + 1, drop)
  {
  }

  /** One more limb, as the loop writes it. */
  lemma LeftNext(x: seq<Limb>, z: seq<Limb>, k: nat, r: nat, i: nat, drop: nat, z1: seq<Limb>, z2: seq<Limb>)
    returns (more: nat)
    requires ShiftingLeft(x, z, k, r, i, drop) && i < |x| && High(x[i], r) < BASE && |z1| == |z|
    requires z1 == if i + k + 1 < |x| && r != 0 then z[i + k + 1 := OrLimb(z[i + k + 1], High(x[i], r))] else z
    requires z2 == if i + k < |x| then z1[i + k := OrLimb(z1[i + k], Low(x[i], r))] else z1
    ensures ShiftingLeft(x, z2, k, r, i + 1, more)
  {
    hide Val, B, High, Low, OrLimb;
    if i + k < |x| {
      if i > 0 {
        ShiftLimb(x[i - 1], r);
      }
      ZeroFits(r);
      OrLow(z[i + k], x[i], r);
      if i + k + 1 < |x| {
        OrZero(High(x[i], r));
        NothingHigh(x[i]);
        LeftWithin(x, z, k, r, i, drop, z2);
        more := 0;
      } else {
        LeftAtTop(x, z, k, r, i, drop, z2);
        more := High(x[i], r);
      }
    } else {
      LeftBeyond(x, z, k, r, i, drop);
      more := drop;
    }
  }

  lemma ZeroFits(r: nat)
    ensures 0 < Pow2(r)
  {
  }

  lemma NothingHigh(x: Limb)
    ensures High(x, 0) == 0
  {
    ShiftLimb(x, 0);
  }

  /** All limbs done, the number is multiplied by a power of two, but for what does not fit. */
  lemma LeftDone(x: seq<Limb>, z: seq<Limb>, k: nat, r: nat, drop: nat)
    requires ShiftingLeft(x, z, k, r, |x|, drop)
    ensures Val(z) == (Val(x) * Pow2(32 * k + r)) % B(|x|)
  {
    var w := |x|;
    var v, top := Val(x[..w - k]), Val(x[w - k..]);
    assert k == 0 ==> x[..w] == x;
    ValSplit(x, w - k);
    Pow2Add(32 * k, r);
    BAdd(w - k, k);
    ValBound(z);
    hide Val, B, Pow2;
    LeftSum(v, top, B(w - k), Pow2(r), B(k), B(w), drop, Val(z));
    DivModIs(Val(x) * (B(k) * Pow2(r)), drop + top * Pow2(r), Val(z), B(w));
  }

  lemma LeftSum(v: nat, top: nat, q: nat, p: nat, bk: nat, w: nat, drop: nat, z: nat)
    requires q * bk == w && z + drop * w == v * p * bk
    ensures (v + q * top) * (bk * p) == (drop + top * p) * w + z && drop + top * p >= 0
  {
    NotNegative(top, p);
    Distribute(v, q * top, bk * p);
    assert v * (bk * p) == v * p * bk;
    assert q * top * (bk * p) == top * p * w by {
      Associate(q, top, bk * p);
      Associate(top, p, w);
      assert q * top * (bk * p) == (q * bk) * (top * p);
    }
    Distribute(drop, top * p, w);
  }

  /** Shifting by at least the whole width leaves nothing. */
  lemma LeftAllOut(v: nat, shift: nat, w: nat)
    requires 32 * w <= shift
    ensures (v * Pow2(shift)) % B(w) == 0
  {
    Pow2Add(32 * w, shift - 32 * w);
    hide Pow2, B;
    var q := Pow2(shift - 32 * w);
    NotNegative(v, q);
    assert v * (B(w) * q) == v * q * B(w);
    DivModIs(v * (B(w) * q), v * q, 0, B(w));
  }

  // ---------- Shifting right ----------

  /** The limbs written so far when shifting right by `k` limbs and `r` bits: `i` limbs are done. */
  ghost predicate ShiftingRight(x: seq<Limb>, z: seq<Limb>, k: nat, r: nat, i: nat) {
    && |z| == |x| && r < 32 && i <= |x| && k < |x|
    && (forall m :: (if i > k then i - k else 0) <= m < |x| ==> z[m] == 0)
    && (i > k ==>
          && z[i - k - 1] == High(x[i - 1], 32 - r)
          && Val(x[..i]) == Val(x[..k]) + B(k) * (Val(z) * Pow2(r) + x[k] % Pow2(r)))
  }

  lemma ShiftRightStarts(x: seq<Limb>, z: seq<Limb>, k: nat, r: nat)
    requires |z| == |x| && r < 32 && k < |x| && forall m :: 0 <= m < |z| ==> z[m] == 0
    ensures ShiftingRight(x, z, k, r, 0)
  {
  }

  lemma RightWeight(x: Limb, r: nat, j: nat)
    requires r < 32
    ensures Low(x, 32 - r) * B(j) * Pow2(r) + High(x, 32 - r) * B(j + 1) * Pow2(r) == x * B(j + 1)
  {
    hide B, High, Low;
    ShiftLimb(x, 32 - r);
    Pow2Of32();
    Pow2Add(32 - r, r);
    BNext(j);
    hide Pow2;
    RightWeightSum(x, Low(x, 32 - r), High(x, 32 - r), Pow2(32 - r), Pow2(r), B(j));
  }

  lemma RightWeightSum(x: nat, l: nat, h: nat, q: nat, p: nat, b: nat)
    requires x * q == h * BASE + l && q * p == BASE
    ensures l * b * p + h * (BASE * b) * p == x * (BASE * b)
  {
    Associate(h, BASE, b);
    Distribute(l, h * BASE, b);
    Distribute(l * b, h * BASE * b, p);
    assert x * q * b * p == x * (BASE * b) by {
      Associate(x * q, b, p);
      Associate(x, q, p * b);
      Associate(q, p, b);
      assert x * q * b * p == x * (q * (p * b));
    }
  }

  lemma RightFirst(x: seq<Limb>, z: seq<Limb>, k: nat, r: nat, z2: seq<Limb>)
    requires ShiftingRight(x, z, k, r, k) && High(x[k], 32 - r) < BASE && z2 == z[0 := High(x[k], 32 - r) as Limb]
    ensures ShiftingRight(x, z2, k, r, k + 1)
  {
    hide Val, B, High, Low, Pow2;
    var h := High(x[k], 32 - r);
    ValUpdate(z, 0, h);
    ValZero(z);
    ValSnoc(x, k);
    FirstWeight();
    WholeLimb(x[k], r);
    OneTimes(h as int - z[0] as int);
    assert x[k] * B(k) == B(k) * x[k];
  }

  lemma FirstWeight()
    ensures B(0) == 1
  {
  }

  lemma OneTimes(a: int)
    ensures a * 1 == a
  {
  }

  lemma WholeLimb(x: Limb, r: nat)
    requires r < 32
    ensures x as nat == High(x, 32 - r) * Pow2(r) + x % Pow2(r)
  {
    hide Pow2;
    assert 32 - (32 - r) == r;
  }

  lemma RightWithin(x: seq<Limb>, z: seq<Limb>, k: nat, r: nat, i: nat, z2: seq<Limb>)
    requires ShiftingRight(x, z, k, r, i) && k < i < |x| && High(x[i], 32 - r) < BASE
    requires z[i - k - 1] + Low(x[i], 32 - r) < BASE
    requires z2 ==
             z[i - k - 1 := (z[i - k - 1] as nat + Low(x[i], 32 - r)) as Limb][i - k := High(x[i], 32 - r) as Limb]
    ensures ShiftingRight(x, z2, k, r, i + 1)
  {
    hide Val, B, High, Low;
    var j := i - k - 1;
    var h, l := High(x[i], 32 - r), Low(x[i], 32 - r);
    var z1 := z[j := (z[j] as nat + l) as Limb];
    ValUpdate(z, j, z[j] as nat + l);
    ValUpdate(z1, j + 1, h);
    ValSnoc(x, i);
    RightWeight(x[i], r, j);
    BAdd(k, j + 1);
    hide Pow2;
    RightSum(Val(x[..k]), B(k), Val(z), Pow2(r), x[k] % Pow2(r), x[i], B(j + 1), l * B(j), h * B(j + 1));
  }

  lemma RightSum(v: nat, bk: nat, z: nat, p: nat, m: nat, x: nat, bj: nat, lb: nat, hb: nat)
    requires lb * p + hb * p == x * bj
    ensures v + bk * (z * p + m) + x * (bk * bj) == v + bk * ((z + lb + hb) * p + m)
  {
    Distribute(z, lb, p);
    Distribute(z + lb, hb, p);
    Distribute(z * p + m, x * bj, bk);
    Associate(x, bk, bj);
    assert bk * (x * bj) == x * (bk * bj);
  }

  /** One more limb, as the loop writes it. */
  lemma RightNext(x: seq<Limb>, z: seq<Limb>, k: nat, r: nat, i: nat, z1: seq<Limb>, z2: seq<Limb>)
    requires ShiftingRight(x, z, k, r, i) && i < |x| && |z1| == |z| && High(x[i], 32 - r) < BASE
    requires z1 == if i - k - 1 >= 0 && r != 0 then z[i - k - 1 := OrLimb(z[i - k - 1], Low(x[i], 32 - r))] else z
    requires z2 == if i - k >= 0 then z1[i - k := OrLimb(z1[i - k], High(x[i], 32 - r))] else z1
    ensures ShiftingRight(x, z2, k, r, i + 1)
  {
    hide Val, B, High, Low, OrLimb;
    if i >= k {
      OrZero(High(x[i], 32 - r));
      if i == k {
        RightFirst(x, z, k, r, z2);
      } else {
        ShiftLimb(x[i - 1], 32 - r);
        OrLow(z[i - k - 1], x[i], 32 - r);
        NothingLow(x[i]);
        RightWithin(x, z, k, r, i, z2);
      }
    }
  }

  lemma NothingLow(x: Limb)
    ensures Low(x, 32) == 0
  {
    ShiftLimb(x, 32);
  }

  /** All limbs done, the number is divided by a power of two. */
  lemma RightDone(x: seq<Limb>, z: seq<Limb>, k: nat, r: nat)
    requires ShiftingRight(x, z, k, r, |x|)
    ensures Val(z) == Val(x) / Pow2(32 * k + r)
  {
    assert x[..|x|] == x;
    ValBound(x[..k]);
    Pow2Add(32 * k, r);
    var low, m := Val(x[..k]), x[k] % Pow2(r);
    hide Val, B, Pow2;
    RightRest(low, B(k), m, Pow2(r), Val(z));
    DivModIs(Val(x), Val(z), low + B(k) * m, B(k) * Pow2(r));
  }

  lemma RightRest(low: nat, bk: nat, m: nat, p: nat, z: nat)
    requires low < bk && m < p
    ensures low + bk * (z * p + m) == z * (bk * p) + (low + bk * m) && 0 <= low + bk * m < bk * p
  {
    Distribute(z * p, m, bk);
    Associate(bk, z, p);
    assert bk * (z * p) == z * (bk * p);
    Scale(m, p, bk);
    NotNegative(bk, m);
  }

  lemma RightAllOut(x: seq<Limb>, shift: nat)
    requires 32 * |x| <= shift
    ensures Val(x) / Pow2(shift) == 0
  {
    ValBound(x);
    Pow2Grows(32 * |x|, shift);
    DivModIs(Val(x), 0, Val(x), Pow2(shift));
  }
}
