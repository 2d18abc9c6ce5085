/** The stored forms given as examples in the source. */
module CoinsExamples {
  import opened Common
  import opened CoinsSpec
  import opened Compressor
  import opened CoinsEncoding
  import opened CoinsStream

  /** Pays to the hash of a key. */
  function PayTo(hash: Bytes): Script { [OP_DUP, OP_HASH160, 20] + hash + [OP_EQUALVERIFY, OP_CHECKSIG] }

  lemma PayToIsWritten(curve: Curve, value: nat, hash: Bytes)
    requires |hash| == 20 && value < TWO64 && Compressed(value) < TWO64
    ensures WriteTxOut(curve, TxOut(value, PayTo(hash))) == VarInt(Compressed(value)) + ([0x00] + hash)
  {
    hide VarInt, Compressed;
    assert PayTo(hash)[3..23] == hash;
  }

  lemma Numbers()
    ensures Compressed(60000000000) == 600 && VarInt(600) == [0x83, 0x58]
    ensures Compressed(234925952) == 2114333561 && VarInt(2114333561) == [0x86, 0xef, 0x97, 0xd5, 0x79]
    ensures Compressed(110397) == 993571 && VarInt(993571) == [0xbb, 0xd1, 0x23]
    ensures VarInt(203998) == [0x8b, 0xb8, 0x5e] && VarInt(120891) == [0x86, 0xaf, 0x3b]
  {
  }

  lemma {:induction false} BlanksAreSkipped(curve: Curve, vout: seq<TxOut>, i: nat, j: nat)
    requires i <= j <= |vout| && forall k :: i <= k < j ==> vout[k].IsNull()
    ensures WriteOuts(curve, vout[i..]) == WriteOuts(curve, vout[j..])
    decreases j - i
  {
    if i < j {
      WriteOutsNext(curve, vout, i);
      BlanksAreSkipped(curve, vout, i + 1, j);
    }
  }

  /** An output with nothing before it since the last one, and what follows. */
  lemma NextWritten(curve: Curve, vout: seq<TxOut>, i: nat, j: nat)
    requires i <= j < |vout| && (forall k :: i <= k < j ==> vout[k].IsNull()) && !vout[j].IsNull()
    ensures WriteOuts(curve, vout[i..]) == WriteTxOut(curve, vout[j]) + WriteOuts(curve, vout[j + 1..])
  {
    hide WriteTxOut, WriteOuts;
    BlanksAreSkipped(curve, vout, i, j);
    WriteOutsNext(curve, vout, j);
  }

  /** The first example, but for the header: an unspent second output is bit 8 and not 4. */
  lemma FirstExample(curve: Curve, hash: Bytes)
    requires |hash| == 20
    ensures var c := Coins(false, false, [NULL_OUT, TxOut(60000000000, PayTo(hash))], 203998, 1);
            First(c.vout) && Encode(curve, c) == [0x01, 0x08, 0x83, 0x58, 0x00] + hash + [0x8b, 0xb8, 0x5e]
  {
    hide WriteTxOut, Compressed, PayTo, WriteOuts, VarInt;
    var c := Coins(false, false, [NULL_OUT, TxOut(60000000000, PayTo(hash))], 203998, 1);
    Numbers();
    SmallNumbers();
    PayToIsWritten(curve, 60000000000, hash);
    NextWritten(curve, c.vout, 0, 1);
    WriteOutsEnds(curve, c.vout);
    assert c.vout[0..] == c.vout && c.vout[2..] == [];
    assert Code(c) == 8 && Cover(c.vout) == 0;
    assert Mask(c.vout, 0, MaskSize(c.vout, Cover(c.vout))) == [];
  }

  lemma SmallNumbers()
    ensures VarInt(1) == [0x01] && VarInt(8) == [0x08] && VarInt(17) == [0x11]
  {
  }

  /** Seventeen outputs, of which the fifth and the last are not spent. */
  function SecondOutputs(a: TxOut, b: TxOut): seq<TxOut> {
    seq(17, i => if i == 4 then a else if i == 16 then b else NULL_OUT)
  }

  lemma SecondMaskBytes(a: TxOut, b: TxOut)
    requires a.value >= 0 && b.value >= 0
    ensures var v := SecondOutputs(a, b);
            MaskByte(v, 0) == 0x04 && MaskByte(v, 1) == 0x40 && !First(v) && Cover(v) == 2
  {
    var v := SecondOutputs(a, b);
    assert Eight(v, 0) == [false, false, true, false, false, false, false, false];
    assert Eight(v, 1) == [false, false, false, false, false, false, true, false];
    ByteWithOne();
    hide Eight, ByteOf;
  }

  lemma SecondMask(a: TxOut, b: TxOut)
    requires a.value >= 0 && b.value >= 0
    ensures var v := SecondOutputs(a, b);
            && !First(v) && Cover(v) == 2 && NonZero(v, 2) == 2 && MaskSize(v, 2) == 2 && Mask(v, 0, 2) == [0x04, 0x40]
  {
    hide MaskByte, SecondOutputs, First, Cover;
    var v := SecondOutputs(a, b);
    SecondMaskBytes(a, b);
    assert NonZero(v, 1) == 1;
    assert Mask(v, 1, 2) == [0x40] + Mask(v, 2, 2);
  }

  lemma ByteWithOne()
    ensures ByteOf([false, false, true, false, false, false, false, false]) == 4
    ensures ByteOf([false, false, false, false, false, false, true, false]) == 64
  {
    assert ByteOf([false, false]) == 0;
    assert ByteOf([true, false]) == 1;
    assert ByteOf([false, false, false, false, false]) == 0;
    assert ByteOf([true, false, false, false, false, false]) == 1;
    assert ByteOf([false, true, false, false, false, false, false]) == 2;
    assert ByteOf([false, false, true, false]) == 4;
    assert ByteOf([false, false, false, true, false]) == 8;
    assert ByteOf([false, false, false, false, true, false]) == 16;
    assert ByteOf([false, false, false, false, false, true, false]) == 32;
  }

  /** The second example, but for the header: its lowest bits and the number of mask bytes have moved by one. */
  lemma SecondExample(curve: Curve, hash: Bytes, hash2: Bytes)
    requires |hash| == 20 && |hash2| == 20
    ensures var v := SecondOutputs(TxOut(234925952, PayTo(hash)), TxOut(110397, PayTo(hash2)));
            var c := Coins(true, false, v, 120891, 1);
            && NonZero(v, Cover(v)) > 0
            && Encode(curve, c) == [0x01, 0x11, 0x04, 0x40] + [0x86, 0xef, 0x97, 0xd5, 0x79, 0x00] + hash
                                   + [0xbb, 0xd1, 0x23, 0x00] + hash2 + [0x86, 0xaf, 0x3b]
  {
    hide WriteTxOut, Compressed, PayTo, WriteOuts, VarInt, MaskByte, NonZero, MaskSize, Cover, Mask, First;
    var a, b := TxOut(234925952, PayTo(hash)), TxOut(110397, PayTo(hash2));
    var v := SecondOutputs(a, b);
    var c := Coins(true, false, v, 120891, 1);
    Numbers();
    SmallNumbers();
    SecondMask(a, b);
    PayToIsWritten(curve, 234925952, hash);
    PayToIsWritten(curve, 110397, hash2);
    NextWritten(curve, v, 0, 4);
    NextWritten(curve, v, 5, 16);
    WriteOutsEnds(curve, v);
    assert v[0..] == v && v[17..] == [];
    assert Code(c) == 17;
  }
}
