/** The stored form of an entry of unspent outputs: a header, a mask telling which outputs are unspent, and these. */
module CoinsEncoding {
  import opened Common
  import opened CoinsSpec
  import opened Compressor

  // ---------- Bits ----------

  function ByteOf(bits: seq<bool>): nat {
    if bits == [] then 0 else (if bits[0] then 1 else 0) + 2 * ByteOf(bits[1..])
  }

  function BitsOf(n: nat, k: nat): (r: seq<bool>)
    ensures |r| == k
  {
    if k == 0 then [] else [n % 2 == 1] + BitsOf(n / 2, k - 1)
  }

  lemma {:induction false} BitsOfByte(bits: seq<bool>)
    ensures BitsOf(ByteOf(bits), |bits|) == bits
    ensures ByteOf(bits) < Pow2(|bits|)
    ensures ByteOf(bits) == 0 <==> forall i :: 0 <= i < |bits| ==> !bits[i]
  {
    if bits != [] {
      BitsOfByte(bits[1..]);
      assert forall i :: 1 <= i < |bits| ==> bits[i] == bits[1..][i - 1];
    }
  }

  lemma {:induction false} ByteSnoc(bits: seq<bool>, b: bool)
    ensures ByteOf(bits + [b]) == ByteOf(bits) + if b then Pow2(|bits|) else 0
  {
    if bits != [] {
      ByteSnoc(bits[1..], b);
      assert (bits + [b])[1..] == bits[1..] + [b];
    }
  }

  // ---------- The mask ----------

  predicate Bit(vout: seq<TxOut>, i: nat) { i < |vout| && !vout[i].IsNull() }

  /** Eight outputs; the first two are not in the mask. */
  function Eight(vout: seq<TxOut>, b: nat): (r: seq<bool>)
    ensures |r| == 8 && forall i :: 0 <= i < 8 ==> r[i] == Bit(vout, 2 + 8 * b + i)
  {
    seq(8, i requires 0 <= i => Bit(vout, 2 + 8 * b + i))
  }

  function MaskByte(vout: seq<TxOut>, b: nat): Byte {
    BitsOfByte(Eight(vout, b));
    assert Pow2(8) == 256;
    ByteOf(Eight(vout, b))
  }

  /** How many of the first `n` bytes of the mask are not zero. */
  function NonZero(vout: seq<TxOut>, n: nat): nat {
    if n == 0 then 0 else NonZero(vout, n - 1) + if MaskByte(vout, n - 1) != 0 then 1 else 0
  }

  /** How many of the first `n` bytes of the mask are needed. */
  function MaskSize(vout: seq<TxOut>, n: nat): nat {
    if n == 0 then 0 else if MaskByte(vout, n - 1) != 0 then n else MaskSize(vout, n - 1)
  }

  /** How many bytes cover all outputs. */
  function Cover(vout: seq<TxOut>): nat { if |vout| <= 2 then 0 else (|vout| + 5) / 8 }

  function Mask(vout: seq<TxOut>, b: nat, n: nat): Bytes
    decreases n - b
  {
    if b >= n then [] else [MaskByte(vout, b)] + Mask(vout, b + 1, n)
  }

  function Availability(vout: seq<TxOut>, k: nat): (r: seq<bool>)
    ensures |r| == k && forall i :: 0 <= i < k ==> r[i] == Bit(vout, i)
  {
    seq(k, i requires 0 <= i => Bit(vout, i))
  }

  /** Reads mask bytes until `masks` of them were not zero. */
  function ReadMask(masks: nat, avail: seq<bool>, s: Bytes): Read<seq<bool>>
    decreases |s|
  {
    if masks == 0 then Got(avail, s)
    else if s == [] then Short
    else ReadMask(if s[0] != 0 then masks - 1 else masks, avail + BitsOf(s[0], 8), s[1..])
  }

  lemma {:induction false} SomeNonZero(vout: seq<TxOut>, b: nat, n: nat)
    requires b < n && MaskByte(vout, n - 1) != 0
    ensures NonZero(vout, b) < NonZero(vout, n)
  {
    if b < n - 1 {
      NonZeroGrows(vout, b, n - 1);
    }
  }

  lemma {:induction false} NonZeroGrows(vout: seq<TxOut>, b: nat, n: nat)
    requires b <= n
    ensures NonZero(vout, b) <= NonZero(vout, n) <= NonZero(vout, b) + (n - b)
  {
    if b < n {
      NonZeroGrows(vout, b, n - 1);
    }
  }

  lemma ReadMaskByte(masks: nat, avail: seq<bool>, c: Byte, s: Bytes)
    requires masks > 0
    ensures ReadMask(masks, avail, [c] + s) == ReadMask(if c != 0 then masks - 1 else masks, avail + BitsOf(c, 8), s)
  {
    assert ([c] + s)[1..] == s;
  }

  lemma EightMore(vout: seq<TxOut>, b: nat)
    ensures Availability(vout, 2 + 8 * b) + BitsOf(MaskByte(vout, b), 8) == Availability(vout, 2 + 8 * (b + 1))
  {
    BitsOfByte(Eight(vout, b));
    hide BitsOf;
  }

  /** A mask whose last byte is not zero is read to its end, and no further. */
  lemma {:induction false} MaskRoundTrip(vout: seq<TxOut>, b: nat, n: nat, rest: Bytes)
    requires b <= n && (n > 0 ==> MaskByte(vout, n - 1) != 0)
    ensures NonZero(vout, n) >= NonZero(vout, b)
    ensures ReadMask(NonZero(vout, n) - NonZero(vout, b), Availability(vout, 2 + 8 * b), Mask(vout, b, n) + rest) ==
            Got(Availability(vout, 2 + 8 * n), rest)
    decreases n - b
  {
    hide ReadMask, Availability, BitsOf, MaskByte;
    NonZeroGrows(vout, b, n);
    var avail := Availability(vout, 2 + 8 * b);
    if b < n {
      var c := MaskByte(vout, b);
      SomeNonZero(vout, b, n);
      NonZeroGrows(vout, b + 1, n);
      EightMore(vout, b);
      assert Mask(vout, b, n) + rest == [c] + (Mask(vout, b + 1, n) + rest);
      ReadMaskByte(NonZero(vout, n) - NonZero(vout, b), avail, c, Mask(vout, b + 1, n) + rest);
      MaskRoundTrip(vout, b + 1, n, rest);
    } else {
      NoMask(avail, rest);
      assert Mask(vout, b, n) + rest == rest;
    }
  }

  lemma NoMask(avail: seq<bool>, rest: Bytes)
    ensures ReadMask(0, avail, rest) == Got(avail, rest)
  {
  }

  /** An entry whose last output is unspent needs its whole mask. */
  lemma MaskIsNeeded(vout: seq<TxOut>)
    requires vout != [] && !vout[|vout| - 1].IsNull()
    ensures MaskSize(vout, Cover(vout)) == Cover(vout)
    ensures Cover(vout) > 0 ==> MaskByte(vout, Cover(vout) - 1) != 0
    ensures |vout| <= 2 + 8 * Cover(vout)
  {
    hide Cover, Eight, MaskByte;
    CoverIs(vout);
    if |vout| > 2 {
      var b := Cover(vout) - 1;
      LastByte(vout, b, |vout| - 3 - 8 * b);
    }
  }

  lemma CoverIs(vout: seq<TxOut>)
    ensures if |vout| <= 2 then Cover(vout) == 0
            else Cover(vout) > 0 && 8 * Cover(vout) + 2 >= |vout| > 8 * (Cover(vout) - 1) + 2
  {
  }

  lemma LastByte(vout: seq<TxOut>, b: nat, i: nat)
    requires i < 8 && Bit(vout, 2 + 8 * b + i)
    ensures MaskByte(vout, b) != 0
  {
    BitsOfByte(Eight(vout, b));
    assert Eight(vout, b)[i];
  }

  // ---------- The outputs ----------

  function WriteOuts(curve: Curve, vout: seq<TxOut>): Bytes {
    if vout == [] then []
    else (if vout[0].IsNull() then [] else WriteTxOut(curve, vout[0])) + WriteOuts(curve, vout[1..])
  }

  function Prepend(o: TxOut, r: Read<seq<TxOut>>): Read<seq<TxOut>> {
    match r
    case Short => Short
    case Got(vout, rest) => Got([o] + vout, rest)
  }

  function ReadOuts(curve: Curve, avail: seq<bool>, s: Bytes): (r: Read<seq<TxOut>>)
    ensures r.Got? ==> |r.value| == |avail|
    decreases |avail|
  {
    if avail == [] then Got([], s)
    else if !avail[0] then Prepend(NULL_OUT, ReadOuts(curve, avail[1..], s))
    else
      match ReadTxOut(curve, s)
      case Short => Short
      case Got(o, after) => Prepend(o, ReadOuts(curve, avail[1..], after))
  }

  function Blanks(k: nat): seq<TxOut> { seq(k, i => NULL_OUT) }

  predicate OutsEncodable(vout: seq<TxOut>) {
    forall i :: 0 <= i < |vout| ==> if vout[i].IsNull() then vout[i] == NULL_OUT else Encodable(vout[i])
  }

  /** What is read of outputs that have been written. */
  function AllReadBack(vout: seq<TxOut>): (r: seq<TxOut>)
    ensures |r| == |vout|
    ensures forall i :: 0 <= i < |r| ==> r[i] == if vout[i].IsNull() then NULL_OUT else ReadBack(vout[i])
  {
    seq(|vout|, i requires 0 <= i < |vout| => if vout[i].IsNull() then NULL_OUT else ReadBack(vout[i]))
  }

  predicate AmountsFit(vout: seq<TxOut>) {
    forall i :: 0 <= i < |vout| && !vout[i].IsNull() ==> AmountFits(vout[i])
  }

  lemma AllReadBackIff(vout: seq<TxOut>)
    requires OutsEncodable(vout)
    ensures AllReadBack(vout) == vout <==> AmountsFit(vout)
  {
    hide ReadBack, AmountFits;
    forall i | 0 <= i < |vout| && !vout[i].IsNull()
      ensures AllReadBack(vout)[i] == vout[i] <==> AmountFits(vout[i])
    {
      ReadBackIff(vout[i]);
    }
  }

  lemma {:induction false} NoOuts(curve: Curve, k: nat, rest: Bytes)
    ensures ReadOuts(curve, Availability([], k), rest) == Got(Blanks(k), rest)
  {
    if k > 0 {
      NoOuts(curve, k - 1, rest);
      assert Availability([], k) == [false] + Availability([], k - 1);
      SkippedOut(curve, Availability([], k - 1), rest);
      assert Blanks(k) == [NULL_OUT] + Blanks(k - 1);
    } else {
      assert Availability([], k) == [] && Blanks(k) == [];
    }
  }

  lemma SkippedOut(curve: Curve, avail: seq<bool>, s: Bytes)
    ensures ReadOuts(curve, [false] + avail, s) == Prepend(NULL_OUT, ReadOuts(curve, avail, s))
  {
    assert ([false] + avail)[1..] == avail;
  }

  lemma FirstOut(curve: Curve, avail: seq<bool>, s: Bytes, o: TxOut, after: Bytes)
    requires ReadTxOut(curve, s) == Got(o, after)
    ensures ReadOuts(curve, [true] + avail, s) == Prepend(o, ReadOuts(curve, avail, after))
  {
    assert ([true] + avail)[1..] == avail;
  }

  lemma {:induction false} OutsRoundTrip(curve: Curve, vout: seq<TxOut>, k: nat, rest: Bytes)
    requires curve.Sound() && OutsEncodable(vout) && |vout| <= k
    ensures ReadOuts(curve, Availability(vout, k), WriteOuts(curve, vout) + rest) ==
            Got(AllReadBack(vout) + Blanks(k - |vout|), rest)
    decreases |vout|
  {
    hide ReadOuts, ReadTxOut, WriteTxOut, Curve.Sound, IsToKeyID, ReadBack;
    if vout == [] {
      NoOuts(curve, k, rest);
      assert WriteOuts(curve, vout) + rest == rest && AllReadBack(vout) + Blanks(k) == Blanks(k);
    } else {
      var o, tail := vout[0], vout[1..];
      OutsRoundTrip(curve, tail, k - 1, rest);
      AvailabilityTail(vout, k);
      var first := if o.IsNull() then NULL_OUT else ReadBack(o);
      assert AllReadBack(vout) == [first] + AllReadBack(tail);
      assert [first] + (AllReadBack(tail) + Blanks(k - |vout|)) == AllReadBack(vout) + Blanks(k - |vout|);
      if o.IsNull() {
        assert WriteOuts(curve, vout) + rest == WriteOuts(curve, tail) + rest;
        SkippedOut(curve, Availability(tail, k - 1), WriteOuts(curve, tail) + rest);
      } else {
        assert WriteOuts(curve, vout) + rest == WriteTxOut(curve, o) + (WriteOuts(curve, tail) + rest);
        TxOutReadBack(curve, o, WriteOuts(curve, tail) + rest);
        FirstOut(curve, Availability(tail, k - 1), WriteOuts(curve, vout) + rest, first, WriteOuts(curve, tail) + rest);
      }
    }
  }

  lemma AvailabilityTail(vout: seq<TxOut>, k: nat)
    requires vout != [] && k > 0
    ensures Availability(vout, k) == [!vout[0].IsNull()] + Availability(vout[1..], k - 1)
  {
  }

  lemma {:induction false} TrimBlanks(vout: seq<TxOut>, k: nat)
    ensures Trim(vout + Blanks(k)) == Trim(vout)
  {
    if k > 0 {
      TrimBlanks(vout, k - 1);
      assert (vout + Blanks(k))[..|vout| + k - 1] == vout + Blanks(k - 1);
    } else {
      assert vout + Blanks(0) == vout;
    }
  }

  // ---------- Entries ----------

  predicate First(vout: seq<TxOut>) { Bit(vout, 0) || Bit(vout, 1) }

  /** The header; the number of non-zero mask bytes is one less if the first two outputs are spent. */
  function Code(c: Coins): nat
    requires First(c.vout) || NonZero(c.vout, Cover(c.vout)) > 0
  {
    16 * (NonZero(c.vout, Cover(c.vout)) - if First(c.vout) then 0 else 1)
    + (if c.coinBase then 1 else 0) + (if c.coinStake then 2 else 0)
    + (if Bit(c.vout, 0) then 4 else 0) + if Bit(c.vout, 1) then 8 else 0
  }

  /** A signed number as one of variable length: of a negative one, only the last digit is written. */
  function VarSigned(n: int): Bytes { if n < 0 then [n % 128] else VarInt(n) }

  function Encode(curve: Curve, c: Coins): Bytes
    requires First(c.vout) || NonZero(c.vout, Cover(c.vout)) > 0
  {
    VarSigned(c.version) + VarInt(Code(c) % TWO32) + Mask(c.vout, 0, MaskSize(c.vout, Cover(c.vout)))
    + WriteOuts(curve, c.vout) + VarSigned(c.height)
  }

  function Decode(curve: Curve, s: Bytes): Read<Coins> {
    match ReadVarInt(0, s, TWO32)
    case Short => Short
    case Got(version, s1) =>
      match ReadVarInt(0, s1, TWO32)
      case Short => Short
      case Got(code, s2) =>
        match ReadMask(code / 16 + (if code / 4 % 4 != 0 then 0 else 1), [code / 4 % 2 == 1, code / 8 % 2 == 1], s2)
        case Short => Short
        case Got(avail, s3) =>
          match ReadOuts(curve, avail, s3)
          case Short => Short
          case Got(vout, s4) =>
            match ReadVarInt(0, s4, TWO32)
            case Short => Short
            case Got(height, rest) =>
              Got(Cleanup(Coins(code % 2 == 1, code / 2 % 2 == 1, vout, Signed(height, TWO32), Signed(version, TWO32))),
                  rest)
  }

  /** An entry with an unspent output can be written. */
  lemma UnspentCanBeWritten(vout: seq<TxOut>, i: nat)
    requires Bit(vout, i)
    ensures First(vout) || NonZero(vout, Cover(vout)) > 0
  {
    hide Cover, MaskByte;
    CoverIs(vout);
    if i >= 2 {
      var b, k := (i - 2) / 8, (i - 2) % 8;
      LastByte(vout, b, k);
      NonZeroGrows(vout, b + 1, Cover(vout));
    }
  }

  /** An entry with numbers of 32 bits that ends in an unspent output. */
  predicate EntryEncodable(c: Coins) {
    && c.vout != [] && !c.vout[|c.vout| - 1].IsNull() && OutsEncodable(c.vout)
    && -0x8000_0000 <= c.version < 0x8000_0000 && -0x8000_0000 <= c.height < 0x8000_0000
  }

  function Stored(n: int): int { if n < 0 then n % 128 else n }

  lemma SignedRoundTrip(n: int, rest: Bytes)
    requires -0x8000_0000 <= n < 0x8000_0000
    ensures ReadVarInt(0, VarSigned(n) + rest, TWO32) == Got(Stored(n), rest)
    ensures Signed(Stored(n), TWO32) == Stored(n)
  {
    hide ReadVarInt, VarInt;
    if n < 0 {
      ReadDigit(0, n % 128, rest, TWO32);
    } else {
      VarIntRoundTrip(n, rest, TWO32);
    }
  }

  /** What the header says about an entry. */
  lemma CodeFields(c: Coins)
    requires First(c.vout) || NonZero(c.vout, Cover(c.vout)) > 0
    ensures var code := Code(c);
            && code / 16 + (if code / 4 % 4 != 0 then 0 else 1) == NonZero(c.vout, Cover(c.vout))
            && (code / 4 % 2 == 1 <==> Bit(c.vout, 0)) && (code / 8 % 2 == 1 <==> Bit(c.vout, 1))
            && (code % 2 == 1 <==> c.coinBase) && (code / 2 % 2 == 1 <==> c.coinStake)
  {
    HeaderDigits(NonZero(c.vout, Cover(c.vout)) - (if First(c.vout) then 0 else 1), c.coinBase, c.coinStake,
                 Bit(c.vout, 0), Bit(c.vout, 1));
  }

  lemma HeaderDigits(k: nat, a: bool, b: bool, d: bool, e: bool)
    ensures var code := 16 * k + (if a then 1 else 0) + (if b then 2 else 0) + (if d then 4 else 0)
                        + if e then 8 else 0;
            && code / 16 == k && (code / 4 % 4 != 0 <==> d || e) && (code / 4 % 2 == 1 <==> d)
            && (code / 8 % 2 == 1 <==> e)
            && (code % 2 == 1 <==> a) && (code / 2 % 2 == 1 <==> b)
  {
    var c := (if a then 1 else 0) + (if b then 2 else 0) + (if d then 4 else 0) + if e then 8 else 0;
    Sixteen(k, c);
    FourBits(k, c);
    SmallDigits(a, b, d, e);
  }

  lemma SmallDigits(a: bool, b: bool, d: bool, e: bool)
    ensures var c := (if a then 1 else 0) + (if b then 2 else 0) + (if d then 4 else 0) + if e then 8 else 0;
            && (c / 4 != 0 <==> d || e) && (c / 4 % 2 == 1 <==> d) && (c / 8 % 2 == 1 <==> e)
            && (c % 2 == 1 <==> a) && (c / 2 % 2 == 1 <==> b)
  {
  }

  lemma Sixteen(k: nat, c: nat)
    requires c < 16
    ensures (16 * k + c) / 16 == k && (16 * k + c) / 8 == 2 * k + c / 8
    ensures (16 * k + c) / 4 == 4 * k + c / 4 && (16 * k + c) / 2 == 8 * k + c / 2
  {
  }

  lemma Even(k: nat, c: nat)
    ensures (2 * k + c) % 2 == c % 2
  {
  }

  lemma FourBits(k: nat, c: nat)
    requires c < 16
    ensures (4 * k + c / 4) % 4 == c / 4 && (4 * k + c / 4) % 2 == c / 4 % 2 && (2 * k + c / 8) % 2 == c / 8 % 2
    ensures (16 * k + c) % 2 == c % 2 && (8 * k + c / 2) % 2 == c / 2 % 2
  {
    Even(2 * k, c / 4);
    Even(k, c / 8);
    Even(8 * k, c);
    Even(4 * k, c / 2);
  }

  lemma CanBeWritten(c: Coins)
    requires EntryEncodable(c)
    ensures First(c.vout) || NonZero(c.vout, Cover(c.vout)) > 0
  {
    UnspentCanBeWritten(c.vout, |c.vout| - 1);
  }

  /** The header fits unless there are very many outputs. */
  lemma CodeFits(c: Coins)
    requires EntryEncodable(c) && |c.vout| < 0x4000_0000
    ensures First(c.vout) || NonZero(c.vout, Cover(c.vout)) > 0
    ensures Code(c) < TWO32
  {
    CanBeWritten(c);
    NonZeroGrows(c.vout, 0, Cover(c.vout));
  }

  /** The body of an entry is read back. */
  lemma BodyRoundTrip(curve: Curve, c: Coins, tail: Bytes)
    requires curve.Sound() && EntryEncodable(c)
    ensures var n := Cover(c.vout);
            && ReadMask(NonZero(c.vout, n), Availability(c.vout, 2),
                        Mask(c.vout, 0, n) + (WriteOuts(curve, c.vout) + tail)) ==
               Got(Availability(c.vout, 2 + 8 * n), WriteOuts(curve, c.vout) + tail)
            && ReadOuts(curve, Availability(c.vout, 2 + 8 * n), WriteOuts(curve, c.vout) + tail) ==
               Got(AllReadBack(c.vout) + Blanks(2 + 8 * n - |c.vout|), tail)
  {
    hide Curve.Sound, OutsEncodable, ReadMask, ReadOuts, Availability, WriteOuts, AllReadBack;
    var n := Cover(c.vout);
    MaskIsNeeded(c.vout);
    MaskRoundTrip(c.vout, 0, n, WriteOuts(curve, c.vout) + tail);
    OutsRoundTrip(curve, c.vout, 2 + 8 * n, tail);
  }

  /** What is read of an entry that has been written. */
  function EntryReadBack(c: Coins): Coins {
    Cleanup(c.(vout := AllReadBack(c.vout), version := Stored(c.version), height := Stored(c.height)))
  }

  /** If the header fits, an entry is read to its end and no further. */
  lemma EntryRoundTrip(curve: Curve, c: Coins, rest: Bytes)
    requires curve.Sound() && EntryEncodable(c)
    ensures First(c.vout) || NonZero(c.vout, Cover(c.vout)) > 0
    ensures Code(c) < TWO32 ==> Decode(curve, Encode(curve, c) + rest) == Got(EntryReadBack(c), rest)
  {
    hide Curve.Sound, EntryEncodable, ReadMask, ReadOuts, ReadVarInt, WriteOuts, VarInt, VarSigned, Mask, NonZero,
      MaskByte, Encode, Code, Cover, First, AllReadBack, Trim, Stored, Signed, Availability, Bit, Blanks;
    CanBeWritten(c);
    if Code(c) < TWO32 {
      EntryParts(curve, c, rest);
      var n, code := Cover(c.vout), Code(c) % TWO32;
      var tail := VarSigned(c.height) + rest;
      var body := Mask(c.vout, 0, n) + (WriteOuts(curve, c.vout) + tail);
      assert code == Code(c);
      EntryNumbers(c);
      SignedRoundTrip(c.version, VarInt(code) + body);
      VarIntRoundTrip(code, body, TWO32);
      CodeFields(c);
      FirstTwo(c.vout);
      BodyRoundTrip(curve, c, tail);
      SignedRoundTrip(c.height, rest);
      TrimBlanks(AllReadBack(c.vout), 2 + 8 * n - |c.vout|);
    }
  }

  lemma FirstTwo(vout: seq<TxOut>)
    ensures Availability(vout, 2) == [Bit(vout, 0), Bit(vout, 1)]
  {
  }

  lemma EntryNumbers(c: Coins)
    requires EntryEncodable(c)
    ensures -0x8000_0000 <= c.version < 0x8000_0000 && -0x8000_0000 <= c.height < 0x8000_0000
  {
  }

  lemma EntryParts(curve: Curve, c: Coins, rest: Bytes)
    requires EntryEncodable(c) && (First(c.vout) || NonZero(c.vout, Cover(c.vout)) > 0)
    ensures 2 + 8 * Cover(c.vout) >= |c.vout|
    ensures Encode(curve, c) + rest ==
            VarSigned(c.version)
            + (VarInt(Code(c) % TWO32)
               + (Mask(c.vout, 0, Cover(c.vout)) + (WriteOuts(curve, c.vout) + (VarSigned(c.height) + rest))))
  {
    hide VarSigned, VarInt, Mask, WriteOuts, Code, Cover, OutsEncodable;
    MaskIsNeeded(c.vout);
  }

  // ---------- Which entries come back the same ----------

  /** With fewer mask bytes to read than there are, reading ends before the last one. */
  lemma {:induction false} MaskCutShort(vout: seq<TxOut>, b: nat, n: nat, masks: nat, avail: seq<bool>, rest: Bytes)
    requires b <= n && NonZero(vout, n) >= NonZero(vout, b) && masks < NonZero(vout, n) - NonZero(vout, b)
    ensures var r := ReadMask(masks, avail, Mask(vout, b, n) + rest);
            b < n && r.Got? && |r.value| <= |avail| + 8 * (n - 1 - b)
    decreases n - b
  {
    hide ReadMask, BitsOf, MaskByte;
    if masks == 0 {
      NoMask(avail, Mask(vout, b, n) + rest);
    } else {
      var c := MaskByte(vout, b);
      var tail := Mask(vout, b + 1, n) + rest;
      NonZeroGrows(vout, b + 1, n);
      assert Mask(vout, b, n) + rest == [c] + tail;
      ReadMaskByte(masks, avail, c, tail);
      MaskCutShort(vout, b + 1, n, if c != 0 then masks - 1 else masks, avail + BitsOf(c, 8), rest);
    }
  }

  /** A header that has wrapped around asks for fewer mask bytes than there are. */
  lemma WrappedCode(c: Coins)
    requires (First(c.vout) || NonZero(c.vout, Cover(c.vout)) > 0) && Code(c) >= TWO32
    ensures var code := Code(c) % TWO32;
            code / 16 + (if code / 4 % 4 != 0 then 0 else 1) < NonZero(c.vout, Cover(c.vout))
  {
    var k := NonZero(c.vout, Cover(c.vout)) - if First(c.vout) then 0 else 1;
    var low := Code(c) - 16 * k;
    WrapHeader(k, low);
    HeaderDigits(k % 0x1000_0000, c.coinBase, c.coinStake, Bit(c.vout, 0), Bit(c.vout, 1));
  }

  lemma WrapHeader(k: nat, low: nat)
    requires low < 16
    ensures (16 * k + low) % TWO32 == 16 * (k % 0x1000_0000) + low
  {
  }

  /** Then the outputs read are fewer than those written. */
  lemma WrappedEntryIsLost(curve: Curve, c: Coins, rest: Bytes)
    requires EntryEncodable(c) && (First(c.vout) || NonZero(c.vout, Cover(c.vout)) > 0) && Code(c) >= TWO32
    ensures Decode(curve, Encode(curve, c) + rest) != Got(c, rest)
  {
    hide OutsEncodable, ReadMask, ReadOuts, ReadVarInt, WriteOuts, VarInt, VarSigned, Mask, NonZero, MaskByte, Encode,
      Code, Cover, First;
    EntryParts(curve, c, rest);
    CoverIs(c.vout);
    WrappedCode(c);
    var n, code := Cover(c.vout), Code(c) % TWO32;
    var outs := WriteOuts(curve, c.vout) + (VarSigned(c.height) + rest);
    SignedRoundTrip(c.version, VarInt(code) + (Mask(c.vout, 0, n) + outs));
    VarIntRoundTrip(code, Mask(c.vout, 0, n) + outs, TWO32);
    NoneBefore(c.vout);
    MaskCutShort(c.vout, 0, n, code / 16 + (if code / 4 % 4 != 0 then 0 else 1),
                 [code / 4 % 2 == 1, code / 8 % 2 == 1], outs);
  }

  lemma NoneBefore(vout: seq<TxOut>)
    ensures NonZero(vout, 0) == 0
  {
  }

  lemma ReadBackSame(c: Coins)
    requires EntryEncodable(c)
    ensures EntryReadBack(c) == c <==> c.version >= 0 && c.height >= 0 && AmountsFit(c.vout)
  {
    hide AmountsFit, OutsEncodable, AllReadBack;
    AllReadBackIff(c.vout);
    TrimKept(c.vout);
    var w := AllReadBack(c.vout);
    assert Trim(w) == c.vout ==> w[..|w|] == w;
    hide Trim;
  }

  /** An entry survives storage exactly if neither its version nor its height is negative, the compressed amounts of
      its outputs fit into 64 bits, and its header into 32. */
  lemma EntryRoundTripIff(curve: Curve, c: Coins, rest: Bytes)
    requires curve.Sound() && EntryEncodable(c)
    ensures First(c.vout) || NonZero(c.vout, Cover(c.vout)) > 0
    ensures Decode(curve, Encode(curve, c) + rest) == Got(c, rest) <==>
            c.version >= 0 && c.height >= 0 && AmountsFit(c.vout) && Code(c) < TWO32
  {
    hide Encode, Decode, EntryReadBack, AmountsFit, EntryEncodable, Curve.Sound;
    EntryRoundTrip(curve, c, rest);
    if Code(c) < TWO32 {
      ReadBackSame(c);
    } else {
      WrappedEntryIsLost(curve, c, rest);
    }
  }

  /** An entry that is not read back: of version -1, only 127 is left. */
  lemma NegativeVersionIsLost(curve: Curve, rest: Bytes)
    requires curve.Sound()
    ensures var c := Coins(false, false, [TxOut(5, [1])], 7, -1);
            && EntryEncodable(c) && (First(c.vout) || NonZero(c.vout, Cover(c.vout)) > 0)
            && Decode(curve, Encode(curve, c) + rest) == Got(c.(version := 127), rest)
  {
    hide Encode, Decode, AmountFits, Code;
    var c := Coins(false, false, [TxOut(5, [1])], 7, -1);
    LegalAmountFits(c.vout[0]);
    EntryRoundTrip(curve, c, rest);
    CodeFits(c);
    AllReadBackIff(c.vout);
    TrimKept(c.vout);
  }
}
