/** What the loops over limbs add up to. */
module LimbLemmas {
  import opened Common
  import opened Limbs

  lemma SmallValue(s: seq<Limb>, b: nat)
    requires |s| >= 2 && s[0] == b % BASE && s[1] == b / BASE && forall i :: 2 <= i < |s| ==> s[i] == 0
    ensures Val(s) == b
  {
    LowTwo(s);
    hide Val, B;
    ValSplit(s, 2);
    ValZero(s[2..]);
  }

  lemma LowTwo(s: seq<Limb>)
    requires |s| >= 2
    ensures Val(s[..2]) == s[0] + s[1] * BASE
  {
    assert B(0) == 1 && Val([]) == 0;
    hide Val, B;
    ValSnoc(s, 0);
    ValSnoc(s, 1);
    assert s[..0] == [];
    BNext(0);
  }

  /** The two lowest limbs are what is left modulo 2 to the 64. */
  lemma LowLimbs(s: seq<Limb>)
    requires |s| >= 2
    ensures Val(s) % (BASE * BASE) == s[0] as nat + s[1] as nat * BASE
  {
    ValSplit(s, 2);
    ValSnoc(s, 0);
    ValSnoc(s, 1);
    assert s[..0] == [];
    BNext(0);
    BNext(1);
    assert B(0) == 1;
    DivModIs(Val(s), Val(s[2..]), s[0] as nat + s[1] as nat * BASE, BASE * BASE);
  }

  lemma AddLimb(x: seq<Limb>, y: seq<Limb>, i: nat, carry: nat, n: nat)
    requires i < |x| == |y| && n == carry + x[i] + y[i]
    ensures carry * B(i) + x[i] * B(i) + y[i] * B(i) == (n % BASE) * B(i) + (n / BASE) * B(i + 1)
  {
    var a: int, b: int := x[i], y[i];
    Distribute(carry, a + b, B(i));
    Distribute(a, b, B(i));
    Carry(n, i);
  }

  lemma Wrapped(z: seq<Limb>, x: seq<Limb>, y: seq<Limb>, carry: nat)
    requires |x| == |y| == |z| && Val(z[..|z|]) + carry * B(|z|) == Val(x[..|x|]) + Val(y[..|y|])
    ensures Val(z) == (Val(x) + Val(y)) % B(|z|)
  {
    hide Val, B;
    assert z[..|z|] == z && x[..|x|] == x && y[..|y|] == y;
    ValBound(z);
    DivModIs(Val(x) + Val(y), carry, Val(z), B(|z|));
  }

  lemma {:induction false} Complement(x: seq<Limb>, z: seq<Limb>)
    requires |z| == |x| && forall i :: 0 <= i < |x| ==> z[i] == BASE - 1 - x[i]
    ensures Val(x) + Val(z) == B(|x|) - 1
  {
    if x != [] {
      var i := |x| - 1;
      Complement(x[..i], z[..i]);
      BNext(i);
      Distribute(BASE - 1, x[i], B(i));
      Distribute(BASE, 1, B(i));
    }
  }

  lemma CarriedInto(x: seq<Limb>, z: seq<Limb>, i: nat)
    requires i < |x| == |z| && z[i] as int == x[i] as int + 1
    requires forall k :: 0 <= k < i ==> x[k] == BASE - 1 && z[k] == 0
    requires forall k :: i < k < |x| ==> z[k] == x[k]
    ensures Val(z) == Val(x) + 1
  {
    hide Val, B;
    FullLimbs(x[..i]);
    ValZero(z[..i]);
    assert |x[..i]| == i;
    ValSplit(x, i + 1);
    ValSplit(z, i + 1);
    ValSnoc(x, i);
    ValSnoc(z, i);
    assert x[i + 1..] == z[i + 1..];
    OneMore(x[i], B(i));
  }

  /** Adding one carries over all limbs that are full. */
  lemma CarriedOver(x: seq<Limb>, z: seq<Limb>, i: nat)
    requires i < |x| == |z| && z[i] == (x[i] + 1) % BASE && (z[i] != 0 || i == |x| - 1)
    requires forall k :: 0 <= k < i ==> x[k] == BASE - 1 && z[k] == 0
    requires forall k :: i < k < |x| ==> z[k] == x[k]
    ensures if x[i] == BASE - 1 then Val(x) == B(|x|) - 1 && Val(z) == 0 else Val(z) == Val(x) + 1
  {
    hide Val, B;
    if x[i] == BASE - 1 {
      FullLimbs(x);
      ValZero(z);
    } else {
      CarriedInto(x, z, i);
    }
  }

  lemma OneMore(a: nat, c: nat)
    ensures (a + 1) * c == a * c + c
  {
  }

  lemma Incremented(x: seq<Limb>, z: seq<Limb>, i: nat)
    requires i < |x| == |z| && z[i] == (x[i] + 1) % BASE && (z[i] != 0 || i == |x| - 1)
    requires forall k :: 0 <= k < i ==> x[k] == BASE - 1 && z[k] == 0
    requires forall k :: i < k < |x| ==> z[k] == x[k]
    ensures Val(z) == (Val(x) + 1) % B(|x|)
  {
    hide Val, B;
    CarriedOver(x, z, i);
    ValBound(z);
    DivModIs(Val(x) + 1, if x[i] == BASE - 1 then 1 else 0, Val(z), B(|x|));
  }

  lemma {:induction false} FullLimbs(x: seq<Limb>)
    requires forall k :: 0 <= k < |x| ==> x[k] == BASE - 1
    ensures Val(x) == B(|x|) - 1
  {
    ValZero(seq(|x|, k => 0 as Limb));
    Complement(seq(|x|, k => 0 as Limb), x);
  }

  lemma SubMod(x: nat, y: nat, m: nat)
    requires y < m
    ensures (x + (m - y) % m) % m == (x - y) % m
  {
    var q := (x - y) / m;
    var r := (x - y) % m;
    Distribute(q, 1, m);
    if y == 0 {
      DivModIs(m, 1, 0, m);
    } else {
      DivModIs(m - y, 0, m - y, m);
      DivModIs(x + (m - y), q + 1, r, m);
    }
  }

  lemma MulLimb(x: seq<Limb>, i: nat, b: Limb, carry: nat, n: nat)
    requires i < |x| && n == carry + b * x[i] && carry < BASE
    ensures Val(x[..i + 1]) * b + carry * B(i) == Val(x[..i]) * b + (n % BASE) * B(i) + (n / BASE) * B(i + 1)
    ensures n / BASE < BASE
  {
    hide Val, B;
    ValSnoc(x, i);
    Distribute(Val(x[..i]), x[i] * B(i), b);
    Distribute(carry, b * x[i], B(i));
    Associate(b, x[i], B(i));
    Carry(n, i);
    LimbProduct(b, x[i]);
  }

  lemma LimbProduct(a: Limb, b: Limb)
    ensures 0 <= a * b <= (BASE - 1) * (BASE - 1)
  {
    NotNegative(a, b);
    Scale(a, BASE - 1, b);
    Scale(b, BASE - 1, BASE - 1);
  }

  lemma WrappedProduct(z: seq<Limb>, x: seq<Limb>, b: nat, carry: nat)
    requires |x| == |z| && Val(z[..|z|]) + carry * B(|z|) == Val(x[..|x|]) * b
    ensures Val(z) == (Val(x) * b) % B(|z|)
  {
    hide Val, B;
    assert z[..|z|] == z && x[..|x|] == x;
    ValBound(z);
    DivModIs(Val(x) * b, carry, Val(z), B(|z|));
  }

  lemma FitsIn64(carry: nat, d: Limb, a: Limb, b: Limb)
    requires carry < BASE
    ensures 0 <= carry + d + a * b < BASE * BASE && (carry + d + a * b) / BASE < BASE
  {
    LimbProduct(a, b);
  }

  lemma RowStarts(start: nat, a: Limb, y: seq<Limb>, j: nat)
    ensures start + 0 * B(j) == start + a * Val(y[..0]) * B(j)
  {
    assert y[..0] == [];
  }

  lemma RowLimb(start: seq<Limb>, was: seq<Limb>, a: Limb, y: seq<Limb>, i: nat, j: nat, carry: nat, n: nat)
    requires |was| == |start| == |y| && i + j < |was| && n == carry + was[i + j] + a * y[i]
    requires Val(was) + carry * B(i + j) == Val(start) + a * Val(y[..i]) * B(j)
    ensures var low: Limb := n % BASE;
            Val(was[i + j := low]) + (n / BASE) * B(i + j + 1) == Val(start) + a * Val(y[..i + 1]) * B(j)
  {
    hide Val, B;
    var p := i + j;
    ValUpdate(was, p, n % BASE);
    Carry(n, p);
    LimbsTimes(carry, was[p], a * y[i], n, B(p));
    RowWeight(a, y, i, j);
  }

  lemma LimbsTimes(c: int, d: int, e: int, n: int, w: nat)
    requires n == c + d + e
    ensures n * w == c * w + d * w + e * w
    ensures (n % BASE - d) * w == (n % BASE) * w - d * w
  {
    Distribute(c, d + e, w);
    Distribute(d, e, w);
    Distribute(n % BASE, d, w);
  }

  lemma RowWeight(a: Limb, y: seq<Limb>, i: nat, j: nat)
    requires i < |y|
    ensures a * Val(y[..i + 1]) * B(j) == a * Val(y[..i]) * B(j) + a * y[i] * B(i + j)
  {
    ValSnoc(y, i);
    Pow2Add(32 * i, 32 * j);
    hide Val, B;
    var v, u := Val(y[..i]), y[i] * B(i);
    Distribute(v, u, a);
    Distribute(a * v, a * u, B(j));
    Associate(a, y[i], B(i));
    Associate(a * y[i], B(i), B(j));
  }

  lemma RowDone(start: seq<Limb>, z: seq<Limb>, x: seq<Limb>, y: seq<Limb>, j: nat, carry: nat, wraps: nat)
    returns (more: nat)
    requires |start| == |z| == |x| == |y| && j < |x|
    requires Val(z) + carry * B(|x|) == Val(start) + x[j] * Val(y[..|x| - j]) * B(j)
    requires Val(start) + wraps * B(|x|) == Val(x[..j]) * Val(y)
    ensures Val(z) + more * B(|x|) == Val(x[..j + 1]) * Val(y)
  {
    hide Val;
    var w, a := |x|, x[j];
    var low, high := Val(y[..w - j]), Val(y[w - j..]);
    NotNegative(a, high);
    more := wraps + carry + a * high;
    ValSplit(y, w - j);
    Pow2Add(32 * j, 32 * (w - j));
    ValSnoc(x, j);
    RowSums(a, low, high, B(j), B(w - j), B(w));
    Distribute(Val(x[..j]), a * B(j), Val(y));
    Distribute(wraps, carry, B(w));
    Distribute(wraps + carry, a * high, B(w));
  }

  lemma RowSums(a: nat, low: nat, high: nat, p: nat, q: nat, w: nat)
    requires p * q == w
    ensures a * p * (low + q * high) == a * low * p + a * high * w
  {
    Distribute(low, q * high, a * p);
    Associate(a * p, q, high);
    assert a * p * q == a * w by {
      Associate(a, p, q);
    }
    assert a * p * low == a * low * p;
    assert a * w * high == a * high * w;
  }
}
