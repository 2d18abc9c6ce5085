/** Writing an entry of unspent outputs to a stream and reading it back, step by step. */
module CoinsStream {
  import opened Common
  import opened CoinsSpec
  import opened Compressor
  import opened CoinsEncoding

  /** How many bytes the mask has, and how many of them are not zero. */
  method CalcMaskSize(vout: seq<TxOut>) returns (bytes: nat, nonzeroBytes: nat)
    ensures bytes == MaskSize(vout, Cover(vout)) && nonzeroBytes == NonZero(vout, Cover(vout))
  {
    hide Cover, MaskByte, BitsOf;
    CoverIs(vout);
    bytes, nonzeroBytes := 0, 0;
    var b := 0;
    while 2 + b * 8 < |vout|
      invariant b <= Cover(vout) && bytes == MaskSize(vout, b) && nonzeroBytes == NonZero(vout, b)
    {
      ghost var bits := Eight(vout, b);
      var zero, i := true, 0;
      while i < 8 && 2 + b * 8 + i < |vout|
        invariant 0 <= i <= 8 && (zero <==> forall k :: 0 <= k < i ==> !bits[k])
      {
        assert bits[i] == Bit(vout, 2 + 8 * b + i);
        if !vout[2 + b * 8 + i].IsNull() {
          zero := false;
        }
        i := i + 1;
      }
      MaskByteIsZero(vout, b, i, zero);
      b := b + 1;
      if !zero {
        bytes := b;
        nonzeroBytes := nonzeroBytes + 1;
      }
    }
  }

  lemma MaskByteIsZero(vout: seq<TxOut>, b: nat, i: nat, zero: bool)
    requires i <= 8 && (i == 8 || 2 + b * 8 + i >= |vout|) && (zero <==> forall k :: 0 <= k < i ==> !Eight(vout, b)[k])
    ensures zero <==> MaskByte(vout, b) == 0
  {
    BitsOfByte(Eight(vout, b));
  }

  lemma {:induction false} MaskSnoc(vout: seq<TxOut>, b: nat, n: nat)
    requires b <= n
    ensures Mask(vout, b, n + 1) == Mask(vout, b, n) + [MaskByte(vout, n)]
    decreases n - b
  {
    if b < n {
      MaskSnoc(vout, b + 1, n);
    } else {
      assert Mask(vout, b, n) == [] && Mask(vout, b + 1, n + 1) == [];
    }
  }

  lemma {:induction false} ByteOfFalse(bits: seq<bool>, i: nat)
    requires i <= |bits| && forall k :: i <= k < |bits| ==> !bits[k]
    ensures ByteOf(bits) == ByteOf(bits[..i])
    decreases |bits| - i
  {
    if i < |bits| {
      ByteOfFalse(bits, i + 1);
      ByteSnoc(bits[..i], false);
      assert bits[..i + 1] == bits[..i] + [false];
    } else {
      assert bits[..i] == bits;
    }
  }

  method MaskByteAt(vout: seq<TxOut>, b: nat) returns (avail: Byte)
    ensures avail == MaskByte(vout, b)
  {
    ghost var bits := Eight(vout, b);
    assert Pow2(8) == 256;
    var sum, pow, i := 0, 1, 0;
    assert bits[..0] == [];
    while i < 8 && 2 + b * 8 + i < |vout|
      invariant 0 <= i <= 8 && pow == Pow2(i) && sum == ByteOf(bits[..i])
    {
      assert bits[..i + 1] == bits[..i] + [bits[i]];
      ByteSnoc(bits[..i], bits[i]);
      if !vout[2 + b * 8 + i].IsNull() {
        sum := sum + pow;
      }
      i, pow := i + 1, pow * 2;
    }
    ByteOfFalse(bits, i);
    BitsOfByte(bits);
    avail := sum;
  }

  method Serialize(curve: Curve, c: Coins) returns (s: Bytes)
    requires !c.IsPruned()
    ensures First(c.vout) || NonZero(c.vout, Cover(c.vout)) > 0
    ensures s == Encode(curve, c)
  {
    hide VarInt, VarSigned, WriteTxOut, MaskByte, Eight;
    var maskSize, maskCode := CalcMaskSize(c.vout);
    var first := |c.vout| > 0 && !c.vout[0].IsNull();
    var second := |c.vout| > 1 && !c.vout[1].IsNull();
    ghost var i :| 0 <= i < |c.vout| && !c.vout[i].IsNull();
    UnspentCanBeWritten(c.vout, i);
    assert first || second || maskCode > 0;
    var code := 16 * (maskCode - if first || second then 0 else 1)
      + (if c.coinBase then 1 else 0) + (if c.coinStake then 2 else 0) + (if first then 4 else 0)
      + if second then 8 else 0;
    s := VarSigned(c.version) + VarInt(code % TWO32);
    var mask: Bytes := [];
    for b := 0 to maskSize
      invariant mask == Mask(c.vout, 0, b)
    {
      MaskSnoc(c.vout, 0, b);
      var avail := MaskByteAt(c.vout, b);
      mask := mask + [avail];
    }
    var outs := WriteOutputs(curve, c.vout);
    s := s + mask + outs + VarSigned(c.height);
  }

  method WriteOutputs(curve: Curve, vout: seq<TxOut>) returns (s: Bytes)
    ensures s == WriteOuts(curve, vout)
  {
    hide WriteTxOut, WriteOuts;
    s := [];
    WriteOutsEnds(curve, vout);
    for i := 0 to |vout|
      invariant s + WriteOuts(curve, vout[i..]) == WriteOuts(curve, vout)
    {
      WriteOutsNext(curve, vout, i);
      if !vout[i].IsNull() {
        var bytes := WriteTxOut(curve, vout[i]);
        assert s + (bytes + WriteOuts(curve, vout[i + 1..])) == s + bytes + WriteOuts(curve, vout[i + 1..]);
        s := s + bytes;
      }
    }
  }

  lemma WriteOutsNext(curve: Curve, vout: seq<TxOut>, i: nat)
    requires i < |vout|
    ensures WriteOuts(curve, vout[i..]) ==
            if vout[i].IsNull() then WriteOuts(curve, vout[i + 1..])
            else WriteTxOut(curve, vout[i]) + WriteOuts(curve, vout[i + 1..])
  {
    assert vout[i..][1..] == vout[i + 1..];
    hide WriteTxOut;
  }

  lemma WriteOutsEnds(curve: Curve, vout: seq<TxOut>)
    ensures [] + WriteOuts(curve, vout[0..]) == WriteOuts(curve, vout) && WriteOuts(curve, vout[|vout|..]) == []
  {
    assert vout[0..] == vout;
  }

  method ReadMaskBytes(masks: nat, first: bool, second: bool, s: Bytes) returns (r: Read<seq<bool>>)
    ensures r == ReadMask(masks, [first, second], s)
  {
    var avail, left, rest := [first, second], masks, s;
    while left > 0
      invariant ReadMask(left, avail, rest) == ReadMask(masks, [first, second], s)
      decreases |rest|
    {
      if rest == [] {
        return Short;
      }
      var c, was := rest[0], avail;
      var digits := c as nat;
      for p := 0 to 8
        invariant avail + BitsOf(digits, 8 - p) == was + BitsOf(c, 8)
      {
        avail := avail + [digits % 2 == 1];
        digits := digits / 2;
      }
      assert avail == was + BitsOf(c, 8);
      if c != 0 {
        left := left - 1;
      }
      rest := rest[1..];
    }
    r := Got(avail, rest);
  }

  method ReadOutputs(curve: Curve, avail: seq<bool>, s: Bytes) returns (r: Read<seq<TxOut>>)
    ensures r == ReadOuts(curve, avail, s)
  {
    var vout, rest := seq(|avail|, i => NULL_OUT), s;
    assert vout[..0] == [];
    PrependNothing(ReadOuts(curve, avail, s));
    assert avail[0..] == avail;
    for i := 0 to |avail|
      invariant |vout| == |avail| && forall k :: i <= k < |vout| ==> vout[k] == NULL_OUT
      invariant PrependAll(vout[..i], ReadOuts(curve, avail[i..], rest)) == ReadOuts(curve, avail, s)
    {
      assert avail[i..] == [avail[i]] + avail[i + 1..];
      if avail[i] {
        var next := ReadTxOut(curve, rest);
        if next == Short {
          return Short;
        }
        rest := next.rest;
        vout := vout[i := next.value];
      }
      PrependOne(vout[..i], vout[i], ReadOuts(curve, avail[i + 1..], rest));
      assert vout[..i + 1] == vout[..i] + [vout[i]];
    }
    assert vout[..|avail|] == vout;
    assert vout + [] == vout;
    r := Got(vout, rest);
  }

  function PrependAll(v: seq<TxOut>, r: Read<seq<TxOut>>): Read<seq<TxOut>> {
    match r
    case Short => Short
    case Got(vout, rest) => Got(v + vout, rest)
  }

  lemma PrependNothing(r: Read<seq<TxOut>>)
    ensures PrependAll([], r) == r
  {
    match r
    case Short =>
    case Got(vout, rest) => assert [] + vout == vout;
  }

  lemma PrependOne(v: seq<TxOut>, o: TxOut, r: Read<seq<TxOut>>)
    ensures PrependAll(v, Prepend(o, r)) == PrependAll(v + [o], r)
  {
    match r
    case Short =>
    case Got(vout, rest) => assert v + ([o] + vout) == v + [o] + vout;
  }

  method ReadNumber(s: Bytes, size: nat) returns (r: Read<nat>)
    requires size > 0
    ensures r == ReadVarInt(0, s, size)
  {
    var n, rest := 0, s;
    while true
      invariant ReadVarInt(n, rest, size) == ReadVarInt(0, s, size)
      decreases |rest|
    {
      if rest == [] {
        return Short;
      }
      var c := rest[0];
      n, rest := Wrap(n * 128 + c % 128, size), rest[1..];
      if c >= 0x80 {
        n := Wrap(n + 1, size);
      } else {
        return Got(n, rest);
      }
    }
  }

  method Unserialize(curve: Curve, s: Bytes) returns (r: Read<Coins>)
    ensures r == Decode(curve, s)
  {
    hide ReadVarInt, ReadMask, ReadOuts, Cleanup;
    var version := ReadNumber(s, TWO32);
    if version == Short {
      return Short;
    }
    var code := ReadNumber(version.rest, TWO32);
    if code == Short {
      return Short;
    }
    var n := code.value;
    var first, second := n / 4 % 2 == 1, n / 8 % 2 == 1;
    var avail := ReadMaskBytes(n / 16 + (if n / 4 % 4 != 0 then 0 else 1), first, second, code.rest);
    if avail == Short {
      return Short;
    }
    var vout := ReadOutputs(curve, avail.value, avail.rest);
    if vout == Short {
      return Short;
    }
    var height := ReadNumber(vout.rest, TWO32);
    if height == Short {
      return Short;
    }
    r := Got(Cleanup(Coins(n % 2 == 1, n / 2 % 2 == 1, vout.value, Signed(height.value, TWO32),
                           Signed(version.value, TWO32))), height.rest);
  }

  // ---------- The size of an entry ----------

  /** The header as it is taken for the size: with factor 8 instead of 16. */
  function SizeCode(c: Coins): nat
    requires First(c.vout) || NonZero(c.vout, Cover(c.vout)) > 0
  {
    8 * (NonZero(c.vout, Cover(c.vout)) - if First(c.vout) then 0 else 1)
    + (if c.coinBase then 1 else 0) + (if c.coinStake then 2 else 0)
    + (if Bit(c.vout, 0) then 4 else 0) + if Bit(c.vout, 1) then 8 else 0
  }

  lemma {:induction false} MaskLength(vout: seq<TxOut>, b: nat, n: nat)
    requires b <= n
    ensures |Mask(vout, b, n)| == n - b
    decreases n - b
  {
    if b < n {
      MaskLength(vout, b + 1, n);
    }
  }

  lemma {:induction false} LeadingLength(a: nat, b: nat)
    requires a <= b
    ensures |Leading(a)| <= |Leading(b)|
    decreases b
  {
    if a > 0x7f {
      LeadingLength(a / 128 - 1, b / 128 - 1);
    }
  }

  lemma VarIntLength(a: nat, b: nat)
    requires a <= b
    ensures |VarInt(a)| <= |VarInt(b)|
  {
    if a > 0x7f {
      LeadingLength(a / 128 - 1, b / 128 - 1);
    }
  }

  lemma MaskSizeIsLess(vout: seq<TxOut>, n: nat)
    ensures MaskSize(vout, n) <= n
  {
  }

  lemma EncodedLength(curve: Curve, c: Coins)
    requires First(c.vout) || NonZero(c.vout, Cover(c.vout)) > 0
    ensures |Encode(curve, c)| == |VarSigned(c.version)| + |VarInt(Code(c) % TWO32)|
            + MaskSize(c.vout, Cover(c.vout)) + |WriteOuts(curve, c.vout)| + |VarSigned(c.height)|
  {
    hide VarSigned, VarInt, Mask, MaskSize, WriteOuts, Code, Cover, First, NonZero;
    MaskLength(c.vout, 0, MaskSize(c.vout, Cover(c.vout)));
  }

  /** The size of the outputs. */
  method OutputsSize(curve: Curve, vout: seq<TxOut>) returns (size: nat)
    ensures size == |WriteOuts(curve, vout)|
  {
    hide WriteTxOut, WriteOuts;
    size := 0;
    WriteOutsEnds(curve, vout);
    for i := 0 to |vout|
      invariant size + |WriteOuts(curve, vout[i..])| == |WriteOuts(curve, vout)|
    {
      WriteOutsNext(curve, vout, i);
      if !vout[i].IsNull() {
        size := size + |WriteTxOut(curve, vout[i])|;
      }
    }
  }

  /** What is taken to be the size of an entry: never too much if the header fits, and right exactly if the header
      taken for it is as long as the one written. */
  method GetSerializeSize(curve: Curve, c: Coins) returns (size: nat)
    requires !c.IsPruned()
    ensures First(c.vout) || NonZero(c.vout, Cover(c.vout)) > 0
    ensures size == |Encode(curve, c)| <==> |VarInt(SizeCode(c) % TWO32)| == |VarInt(Code(c) % TWO32)|
    ensures Code(c) < TWO32 ==> size <= |Encode(curve, c)|
  {
    hide VarInt, VarSigned, WriteOuts, MaskSize, Cover, NonZero;
    var maskSize, maskCode := CalcMaskSize(c.vout);
    var first := |c.vout| > 0 && !c.vout[0].IsNull();
    var second := |c.vout| > 1 && !c.vout[1].IsNull();
    ghost var i :| 0 <= i < |c.vout| && !c.vout[i].IsNull();
    UnspentCanBeWritten(c.vout, i);
    assert first || second || maskCode > 0;
    var code := 8 * (maskCode - if first || second then 0 else 1)
      + (if c.coinBase then 1 else 0) + (if c.coinStake then 2 else 0) + (if first then 4 else 0)
      + if second then 8 else 0;
    EncodedLength(curve, c);
    assert code <= Code(c);
    if Code(c) < TWO32 {
      VarIntLength(code, Code(c));
    }
    size := |VarSigned(c.version)| + |VarInt(code % TWO32)| + maskSize;
    var outs := OutputsSize(curve, c.vout);
    size := size + outs + |VarSigned(c.height)|;
  }

  lemma {:induction false} AllMaskBytes(vout: seq<TxOut>, n: nat)
    requires 2 + 8 * n <= |vout| && forall i :: 0 <= i < |vout| ==> !vout[i].IsNull()
    ensures NonZero(vout, n) == n
  {
    if n > 0 {
      AllMaskBytes(vout, n - 1);
      LastByte(vout, n - 1, 0);
    }
  }

  /** An entry whose size is given one too small: 66 outputs, none of them spent. */
  lemma SizeIsTooSmall()
    ensures var c := Coins(false, false, seq(66, i => TxOut(5, [])), 7, 1);
            && First(c.vout) && Code(c) == 140 && SizeCode(c) == 76
            && |VarInt(Code(c) % TWO32)| == 2 && |VarInt(SizeCode(c) % TWO32)| == 1
  {
    hide MaskByte;
    AllMaskBytes(seq(66, i => TxOut(5, [])), 8);
  }
}
