/** Unsigned integers of a fixed number of limbs, changed in place, wrapping around at the top. */
module ArithUint {
  import opened Common
  import opened Limbs
  import opened LimbLemmas
  import opened ShiftLemmas
  import opened DivisionLemmas

  class BaseUint {
    const pn: array<Limb>

    ghost function Value(): nat
      reads pn
    {
      Val(pn[..])
    }

    ghost predicate Same(b: BaseUint) { b.pn.Length == pn.Length }

    /** A number of up to 64 bits. */
    constructor (width: nat, b: nat)
      requires width >= 2 && b < BASE * BASE
      ensures fresh(pn) && pn.Length == width && Value() == b
    {
      var a := new Limb[width](_ => 0);
      a[0] := b % BASE;
      a[1] := b / BASE;
      pn := a;
      new;
      SmallValue(pn[..], b);
    }

    constructor Copy(b: BaseUint)
      ensures fresh(pn) && Same(b) && pn[..] == b.pn[..]
    {
      var a := new Limb[b.pn.Length](i requires 0 <= i < b.pn.Length reads b.pn => b.pn[i]);
      pn := a;
      new;
      assert forall i :: 0 <= i < pn.Length ==> pn[i] == b.pn[i];
    }

    /** Sets all limbs to zero. */
    method Clear()
      modifies pn
      ensures forall i :: 0 <= i < pn.Length ==> pn[i] == 0
      ensures Value() == 0
    {
      for i := 0 to pn.Length
        invariant forall k :: 0 <= k < i ==> pn[k] == 0
      {
        pn[i] := 0;
      }
      ValZero(pn[..]);
    }

    /** Sets the number to one of up to 64 bits. */
    method Assign(b: nat)
      requires pn.Length >= 2 && b < BASE * BASE
      modifies pn
      ensures Value() == b
    {
      pn[0] := b % BASE;
      pn[1] := b / BASE;
      for i := 2 to pn.Length
        invariant pn[0] == b % BASE && pn[1] == b / BASE && forall k :: 2 <= k < i ==> pn[k] == 0
      {
        pn[i] := 0;
      }
      SmallValue(pn[..], b);
    }

    method GetLow64() returns (low: nat)
      requires pn.Length >= 2
      ensures low == Value() % (BASE * BASE)
    {
      LowLimbs(pn[..]);
      low := pn[0] + pn[1] * BASE;
    }

    // ---------- Adding and subtracting ----------

    method AddAssign(b: BaseUint)
      requires Same(b)
      modifies pn
      ensures Value() == (old(Value()) + old(b.Value())) % B(pn.Length)
    {
      ghost var x, y := pn[..], b.pn[..];
      var carry := 0;
      for i := 0 to pn.Length
        invariant forall k :: i <= k < pn.Length ==> pn[k] == x[k] && b.pn[k] == y[k]
        invariant 0 <= carry <= 1
        invariant Val(pn[..i]) + carry * B(i) == Val(x[..i]) + Val(y[..i])
      {
        ghost var low := pn[..i];
        var n: nat := carry + pn[i] + b.pn[i];
        AddLimb(x, y, i, carry, n);
        ValSnoc(x, i);
        ValSnoc(y, i);
        pn[i] := n % BASE;
        assert pn[..i] == low;
        ValSnoc(pn[..], i);
        assert pn[..][..i] == low && pn[..][..i + 1] == pn[..i + 1];
        carry := n / BASE;
      }
      Wrapped(pn[..], x, y, carry);
    }

    /** Negation, for the whole range of values. */
    method Negate() returns (r: BaseUint)
      requires pn.Length > 0
      ensures fresh(r) && fresh(r.pn) && r.Same(this) && r.Value() == (B(pn.Length) - Value()) % B(pn.Length)
    {
      r := new BaseUint.Copy(this);
      for i := 0 to pn.Length
        invariant forall k :: 0 <= k < i ==> r.pn[k] == BASE - 1 - pn[k]
        invariant pn[..] == old(pn[..])
      {
        r.pn[i] := BASE - 1 - pn[i];
      }
      Complement(pn[..], r.pn[..]);
      ValBound(pn[..]);
      r.Increment();
    }

    method Increment()
      requires pn.Length > 0
      modifies pn
      ensures Value() == (old(Value()) + 1) % B(pn.Length)
    {
      ghost var x := pn[..];
      var i := 0;
      pn[0] := (pn[0] + 1) % BASE;
      while pn[i] == 0 && i < pn.Length - 1
        invariant 0 <= i < pn.Length
        invariant forall k :: 0 <= k < i ==> x[k] == BASE - 1 && pn[k] == 0
        invariant forall k :: i < k < pn.Length ==> pn[k] == x[k]
        invariant pn[i] == (x[i] + 1) % BASE
        decreases pn.Length - i
      {
        i := i + 1;
        pn[i] := (pn[i] + 1) % BASE;
      }
      Incremented(x, pn[..], i);
    }

    method SubAssign(b: BaseUint)
      requires Same(b) && pn.Length > 0
      modifies pn
      ensures Value() == (old(Value()) - old(b.Value())) % B(pn.Length)
    {
      ghost var x, y := Value(), b.Value();
      ValBound(b.pn[..]);
      var minus := b.Negate();
      AddAssign(minus);
      SubMod(x, y, B(pn.Length));
    }

    // ---------- Multiplying ----------

    method MulSmall(b32: Limb)
      modifies pn
      ensures Value() == (old(Value()) * b32) % B(pn.Length)
    {
      ghost var x := pn[..];
      var carry := 0;
      for i := 0 to pn.Length
        invariant forall k :: i <= k < pn.Length ==> pn[k] == x[k]
        invariant 0 <= carry < BASE
        invariant Val(pn[..i]) + carry * B(i) == Val(x[..i]) * b32
      {
        ghost var low := pn[..i];
        NotNegative(b32, pn[i]);
        var n: nat := carry + b32 * pn[i];
        MulLimb(x, i, b32, carry, n);
        pn[i] := n % BASE;
        assert pn[..i] == low;
        ValSnoc(pn[..], i);
        assert pn[..][..i] == low && pn[..][..i + 1] == pn[..i + 1];
        carry := n / BASE;
      }
      WrappedProduct(pn[..], x, b32, carry);
    }

    /** The product, unless the other factor is this very number: it is cleared on the way, and zero is left.  So
        the product is right exactly if the numbers are different objects, or the square is zero anyway. */
    method MulAssign(b: BaseUint)
      requires Same(b)
      modifies pn
      ensures Value() == if b.pn == pn then 0 else (old(Value()) * b.Value()) % B(pn.Length)
      ensures Value() == (old(Value()) * old(b.Value())) % B(pn.Length) <==>
              b.pn != pn || (old(Value()) * old(Value())) % B(pn.Length) == 0
    {
      var a := new BaseUint.Copy(this);
      ghost var x, w := pn[..], pn.Length;
      Clear();
      ghost var y := b.pn[..];
      ghost var wraps: nat := 0;
      assert x[..0] == [];
      for j := 0 to pn.Length
        invariant a.pn[..] == x && b.pn[..] == y && (b.pn == pn ==> AllZero())
        invariant Val(pn[..]) + wraps * B(w) == Val(x[..j]) * Val(y)
      {
        wraps := AddRow(a, b, j, wraps);
      }
      assert x[..w] == x;
      ValBound(pn[..]);
      DivModIs(Val(x) * Val(y), wraps, Val(pn[..]), B(w));
      if b.pn == pn {
        ValZero(pn[..]);
      }
    }

    ghost predicate AllZero()
      reads pn
    {
      forall k :: 0 <= k < pn.Length ==> pn[k] == 0
    }

    /** Adds one limb of a number times another number, at the place of that limb.  The other number may be this very
        one only if it is zero. */
    method AddRow(a: BaseUint, b: BaseUint, j: nat, ghost wraps: nat) returns (ghost more: nat)
      requires Same(a) && Same(b) && a.pn != pn && j < pn.Length && (b.pn == pn ==> AllZero())
      requires Value() + wraps * B(pn.Length) == Val(a.pn[..j]) * b.Value()
      modifies pn
      ensures b.pn[..] == old(b.pn[..]) && (b.pn == pn ==> AllZero())
      ensures Value() + more * B(pn.Length) == Val(a.pn[..j + 1]) * b.Value()
    {
      hide Val, B;
      ghost var start, x, y := pn[..], a.pn[..], b.pn[..];
      var carry: nat, i: nat := 0, 0;
      RowStarts(Val(start), x[j], y, j);
      while i + j < pn.Length
        invariant i + j <= pn.Length && carry < BASE
        invariant a.pn[..] == x && b.pn[..] == y && (b.pn == pn ==> AllZero() && carry == 0)
        invariant forall k :: i + j <= k < pn.Length ==> pn[k] == start[k]
        invariant Val(pn[..]) + carry * B(i + j) == Val(start) + x[j] * Val(y[..i]) * B(j)
      {
        ghost var was := pn[..];
        FitsIn64(carry, pn[i + j], a.pn[j], b.pn[i]);
        var n := carry + pn[i + j] as nat + a.pn[j] as nat * b.pn[i] as nat;
        RowLimb(start, was, x[j], y, i, j, carry, n);
        var low: Limb := n % BASE;
        assert b.pn == pn ==> b.pn[i] == 0 && n == 0;
        pn[i + j] := low;
        assert pn[..] == was[i + j := low];
        carry := n / BASE;
        i := i + 1;
      }
      more := RowDone(start, pn[..], x, y, j, carry, wraps);
      assert a.pn[..j] == x[..j] && a.pn[..j + 1] == x[..j + 1];
    }

    // ---------- Shifting ----------

    method ShiftLeft(shift: nat)
      modifies pn
      ensures Value() == (old(Value()) * Pow2(shift)) % B(pn.Length)
    {
      hide Val, B, Pow2, High, Low, OrLimb;
      var a := new BaseUint.Copy(this);
      ghost var x := pn[..];
      Clear();
      var k, r := shift / 32, shift % 32;
      if k >= pn.Length {
        LeftAllOut(Val(x), shift, pn.Length);
        return;
      }
      ShiftLeftStarts(x, pn[..], k, r);
      ghost var drop: nat := 0;
      for i := 0 to pn.Length
        invariant a.pn[..] == x && ShiftingLeft(x, pn[..], k, r, i, drop)
      {
        ghost var z := pn[..];
        ShiftLimb(a.pn[i], r);
        if i + k + 1 < pn.Length && r != 0 {
          pn[i + k + 1] := OrLimb(pn[i + k + 1], High(a.pn[i], r));
        }
        ghost var z1 := pn[..];
        if i + k < pn.Length {
          pn[i + k] := OrLimb(pn[i + k], Low(a.pn[i], r));
        }
        drop := LeftNext(x, z, k, r, i, drop, z1, pn[..]);
      }
      LeftDone(x, pn[..], k, r, drop);
    }

    method ShiftRight(shift: nat)
      modifies pn
      ensures Value() == old(Value()) / Pow2(shift)
    {
      hide Val, B, Pow2, High, Low, OrLimb;
      var a := new BaseUint.Copy(this);
      ghost var x := pn[..];
      Clear();
      var k, r := shift / 32, shift % 32;
      if k >= pn.Length {
        RightAllOut(x, shift);
        return;
      }
      ShiftRightStarts(x, pn[..], k, r);
      for i := 0 to pn.Length
        invariant a.pn[..] == x && ShiftingRight(x, pn[..], k, r, i)
      {
        ghost var z := pn[..];
        HighFits(a.pn[i], r);
        if i - k - 1 >= 0 && r != 0 {
          pn[i - k - 1] := OrLimb(pn[i - k - 1], Low(a.pn[i], 32 - r));
        }
        ghost var z1 := pn[..];
        if i - k >= 0 {
          pn[i - k] := OrLimb(pn[i - k], High(a.pn[i], 32 - r));
        }
        RightNext(x, z, k, r, i, z1, pn[..]);
      }
      RightDone(x, pn[..], k, r);
    }

    // ---------- Comparing ----------

    method CompareTo(b: BaseUint) returns (c: int)
      requires Same(b)
      ensures c == if Value() < b.Value() then -1 else if Value() > b.Value() then 1 else 0
    {
      var i := pn.Length;
      assert pn[..][i..] == b.pn[..][i..];
      while i > 0
        invariant 0 <= i <= pn.Length && pn[..][i..] == b.pn[..][i..]
      {
        i := i - 1;
        assert pn[..][i..] == [pn[i]] + pn[..][i + 1..] && b.pn[..][i..] == [b.pn[i]] + b.pn[..][i + 1..];
        if pn[i] < b.pn[i] {
          HigherLimbDecides(pn[..], b.pn[..], i);
          return -1;
        }
        if pn[i] > b.pn[i] {
          HigherLimbDecides(b.pn[..], pn[..], i);
          return 1;
        }
      }
      assert pn[..][0..] == pn[..] && b.pn[..][0..] == b.pn[..];
      c := 0;
    }

    /** One more than the position of the highest bit, or zero. */
    method Bits() returns (n: nat)
      ensures n <= 32 * pn.Length
      ensures n == 0 <==> Value() == 0
      ensures n > 0 ==> Pow2(n - 1) <= Value() < Pow2(n)
    {
      hide Val, Pow2, HasBit;
      var pos := pn.Length;
      while pos > 0
        invariant 0 <= pos <= pn.Length && forall k :: pos <= k < pn.Length ==> pn[k] == 0
      {
        pos := pos - 1;
        if pn[pos] != 0 {
          Pow2Of32();
          var bits := 31;
          while bits > 0
            invariant 0 <= bits < 32 && pn[pos] as nat < Pow2(bits + 1)
          {
            BitAbove(pn[pos], bits);
            if HasBit(pn[pos], bits) {
              HighestBit(pn[..], pos, bits);
              return 32 * pos + bits + 1;
            }
            bits := bits - 1;
          }
          FirstBit();
          HighestBit(pn[..], pos, 0);
          return 32 * pos + 1;
        }
      }
      ValZero(pn[..]);
      n := 0;
    }

    // ---------- Dividing ----------

    /** Long division; fails for a divisor of zero. */
    method DivAssign(b: BaseUint) returns (ok: bool, num: BaseUint)
      requires Same(b) && pn.Length > 0
      modifies pn
      ensures ok <==> old(b.Value()) > 0
      ensures fresh(num) && fresh(num.pn)
      ensures ok ==> Value() == old(Value()) / old(b.Value()) && num.Value() == old(Value()) % old(b.Value())
    {
      hide Val, B, Pow2, OrLimb;
      var div := new BaseUint.Copy(b);
      num := new BaseUint.Copy(this);
      ghost var x, y := Value(), b.Value();
      Clear();
      var numBits := num.Bits();
      var divBits := div.Bits();
      if divBits == 0 {
        return false, num;
      }
      if divBits > numBits {
        SmallerByBits(x, y, numBits, divBits);
        return true, num;
      }
      var shift := numBits - divBits;
      Aligned(x, y, numBits, divBits, pn.Length);
      FitsAlready(y * Pow2(shift), B(pn.Length));
      div.ShiftLeft(shift);
      NothingSet(pn[..], shift + 1);
      StartDividing(x, y, shift);
      while shift >= 0
        invariant -1 <= shift < 32 * pn.Length && Same(num) && Same(div) && fresh(num.pn) && fresh(div.pn)
                  && num.pn != div.pn
        invariant pn != num.pn && pn != div.pn
        invariant shift >= 0 ==> Dividing(x, y, Value(), num.Value(), shift) && div.Value() == y * Pow2(shift)
        invariant shift >= 0 ==> LowBitsClear(pn[..], shift + 1)
        invariant shift == -1 ==> x == Value() * y + num.Value() && num.Value() < y
      {
        shift := SubtractAndShift(num, div, shift, x, y);
      }
      Divided(x, y, Value(), num.Value());
      ok := true;
    }

    /** One step of long division. */
    method SubtractAndShift(num: BaseUint, div: BaseUint, shift: nat, ghost x: nat, ghost y: nat) returns (next: int)
      requires Same(num) && Same(div) && num.pn != div.pn && pn != num.pn && pn != div.pn && shift < 32 * pn.Length
      requires Dividing(x, y, Value(), num.Value(), shift) && div.Value() == y * Pow2(shift)
               && LowBitsClear(pn[..], shift + 1)
      modifies pn, num.pn, div.pn
      ensures next == shift - 1
      ensures next >= 0 ==>
              Dividing(x, y, Value(), num.Value(), next) && div.Value() == y * Pow2(next)
              && LowBitsClear(pn[..], next + 1)
      ensures next == -1 ==> x == Value() * y + num.Value() && num.Value() < y
    {
      hide Val, B, Pow2, OrLimb, Dividing, LowBitsClear;
      ghost var q, n, d := pn[..], num.Value(), div.Value();
      var c := num.CompareTo(div);
      if c >= 0 {
        ValBound(num.pn[..]);
        num.SubAssign(div);
        Difference(n, d, B(pn.Length));
        BitFits(shift % 32);
        pn[shift / 32] := OrLimb(pn[shift / 32], Pow2(shift % 32));
        SetBit(q, shift, pn[..]);
      } else {
        ClearLower(q, shift);
      }
      DivideStep(x, y, Val(q), n, shift, Value(), num.Value());
      div.ShiftRight(1);
      OneBit();
      if shift > 0 {
        ShiftBack(y, shift);
      } else {
        FirstPower(y);
      }
      next := shift - 1;
    }
  }

  lemma HighFits(x: Limb, r: nat)
    requires r < 32
    ensures High(x, 32 - r) < BASE
  {
    ShiftLimb(x, 32 - r);
    Pow2Of32();
    Pow2Grows(32 - r, 32);
  }

  lemma FirstBit()
    ensures Pow2(0) == 1 && Pow2(1) == 2
  {
  }

  lemma OneBit()
    ensures Pow2(1) == 2
  {
  }

  lemma FirstPower(y: nat)
    ensures y * Pow2(0) == y
  {
  }

  lemma BitFits(b: nat)
    requires b < 32
    ensures Pow2(b) < BASE
  {
    Pow2Of32();
    Pow2Grows(b, 31);
  }

  lemma Difference(n: nat, d: nat, m: nat)
    requires d <= n < m
    ensures (n - d) % m == n - d
  {
    DivModIs(n - d, 0, n - d, m);
  }

  lemma FitsAlready(n: nat, m: nat)
    requires n < m
    ensures n % m == n
  {
    DivModIs(n, 0, n, m);
  }

  lemma SmallerByBits(x: nat, y: nat, n: nat, d: nat)
    requires n < d && (if n == 0 then x == 0 else x < Pow2(n)) && Pow2(d - 1) <= y
    ensures x / y == 0 && x % y == x
  {
    Pow2Grows(n, d - 1);
    DivModIs(x, 0, x, y);
  }

  lemma StartDividing(x: nat, y: nat, shift: nat)
    requires x < 2 * (y * Pow2(shift))
    ensures Dividing(x, y, 0, x, shift)
  {
  }
}
