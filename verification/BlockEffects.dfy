/** Which outputs are unspent after a block, and what is known of them, told without saying how it is connected. */
module BlockEffects {
  import opened CoinsSpec
  import opened Connection

  /** An output of the map that can be spent. */
  predicate Available(m: UtxoMap, t: TxId, n: nat) { t in m && n < |m[t].vout| && m[t].vout[n].value != -1 }

  function OutOf(vout: seq<TxOut>, n: nat): TxOut { if n < |vout| then vout[n] else NULL_OUT }

  function Out(m: UtxoMap, t: TxId, n: nat): TxOut { if t in m then OutOf(m[t].vout, n) else NULL_OUT }

  /** An output of a transaction that could ever be spent: its script does not begin with OP_RETURN. */
  predicate IsSpendable(tx: Tx, n: nat) {
    n < |tx.vout| && !(|tx.vout[n].script| > 0 && tx.vout[n].script[0] == 0x6a)
  }

  /** What is known of a transaction besides its outputs. */
  predicate Describes(c: Coins, tx: Tx, height: int) {
    && (c.coinBase <==> |tx.vin| == 1 && tx.vin[0] == OutPoint(0, 0xffff_ffff))
    && (c.coinStake <==> |tx.vin| > 0 && tx.vin[0] != OutPoint(0, 0xffff_ffff) && |tx.vout| >= 2
                         && tx.vout[0].value == 0 && tx.vout[0].script == [])
    && c.height == height && c.version == tx.version
  }

  /** Some transaction of a block makes this output. */
  predicate Made(txs: seq<Tx>, t: TxId, n: nat) {
    exists i :: 0 <= i < |txs| && txs[i].id == t && IsSpendable(txs[i], n)
  }

  /** Some transaction of a block other than the coinbase spends this output. */
  predicate SpentBy(txs: seq<Tx>, o: OutPoint) {
    exists i :: 0 <= i < |txs| && Takes(txs[i], o)
  }

  predicate Takes(tx: Tx, o: OutPoint) {
    !(|tx.vin| == 1 && tx.vin[0] == OutPoint(0, 0xffff_ffff)) && o in tx.vin
  }

  // ---------- One transaction ----------

  lemma CreatedIs(tx: Tx, height: int)
    requires forall i :: 0 <= i < |tx.vout| ==> tx.vout[i].value >= 0
    ensures var c := FromTx(tx, height);
            && Describes(c, tx, height)
            && (forall n: nat :: n < |c.vout| && c.vout[n].value != -1 <==> IsSpendable(tx, n))
            && (forall n: nat :: IsSpendable(tx, n) ==> OutOf(c.vout, n) == OutOf(tx.vout, n))
            && (c.IsPruned() <==> c.vout == [])
  {
    var all := Spendable(tx.vout);
    var c := FromTx(tx, height);
    assert c.vout == Trim(all) == all[..|c.vout|];
    forall n: nat | IsSpendable(tx, n)
      ensures n < |c.vout|
    {
      assert !all[n].IsNull();
    }
    CreatedIsWellKept(tx, height);
  }

  /** Spending leaves what else is known of a transaction alone. */
  lemma {:induction false} SpendsKeepRest(m: UtxoMap, vin: seq<OutPoint>)
    requires CanConnect(m, Spends(vin))
    ensures var m1 := Connect(m, Spends(vin)).0;
            forall t :: t in m1 ==> t in m && m1[t] == m[t].(vout := m1[t].vout)
    decreases |vin|
  {
    if vin != [] {
      var init, out := vin[..|vin| - 1], vin[|vin| - 1];
      assert Spends(vin) == Spends(init) + [OpSpend(out)];
      ConnectSnoc(m, Spends(init), OpSpend(out));
      SpendsKeepRest(m, init);
      SpendKeepsRest(Connect(m, Spends(init)).0, out);
      hide CanConnect, Connect, Apply, CanApply;
    }
  }

  lemma SpendKeepsRest(m: UtxoMap, out: OutPoint)
    requires CanApply(m, OpSpend(out))
    ensures var m1 := Apply(m, OpSpend(out)).0;
            forall t :: t in m1 ==> t in m && m1[t] == m[t].(vout := m1[t].vout)
  {
  }

  lemma OutIs(m: UtxoMap, t: TxId, n: nat)
    ensures Available(m, t, n) ==> t in m && n < |m[t].vout| && Out(m, t, n) == m[t].vout[n]
  {
  }

  lemma CreatedOnly(m: UtxoMap, m1: UtxoMap, tx: Tx)
    requires forall t :: t != tx.id ==> (t in m1 <==> t in m) && (t in m ==> m1[t] == m[t])
    ensures forall t, n: nat :: t != tx.id ==>
              (Available(m1, t, n) <==> Available(m, t, n)) && Out(m1, t, n) == Out(m, t, n)
  {
  }

  lemma AvailableIs(m: UtxoMap, t: TxId, n: nat)
    ensures Available(m, t, n) <==> CanApply(m, OpSpend(OutPoint(t, n)))
  {
  }

  /** What is unspent after a transaction: what was before or is made by it, less what it spends. */
  ghost predicate IsAfterTx(m: UtxoMap, tx: Tx, height: int, m1: UtxoMap) {
    && (forall o :: o in InputsOf(tx) ==> Available(m, o.hash, o.n))
    && (forall t, n: nat :: Available(m1, t, n) <==>
        if t == tx.id then IsSpendable(tx, n) else Available(m, t, n) && OutPoint(t, n) !in InputsOf(tx))
    && (forall t :: t in m1 && t != tx.id ==> t in m && m1[t] == m[t].(vout := m1[t].vout))
    && (forall t, n: nat :: Available(m1, t, n) && t != tx.id ==> Out(m1, t, n) == Out(m, t, n))
    && (tx.id in m1 ==> Describes(m1[tx.id], tx, height))
    && (forall n: nat :: Available(m1, tx.id, n) ==> Out(m1, tx.id, n) == OutOf(tx.vout, n))
  }

  lemma TxEffect(m: UtxoMap, tx: Tx, height: int)
    requires TxShape(tx) && tx.id !in m && height > 0 && CanConnect(m, TxOps(tx, height))
    ensures IsAfterTx(m, tx, height, Connect(m, TxOps(tx, height)).0)
  {
    hide CanConnect, Connect, Apply, CanApply, FromTx, Describes, IsSpendable, Available, OutOf;
    var vin := InputsOf(tx);
    TxConnects(m, tx, height);
    ConnectSnoc(m, Spends(vin), OpCreate(tx, height));
    HaveInputsIff(m, vin);
    var m0 := Connect(m, Spends(vin)).0;
    forall o | o in vin
      ensures Available(m, o.hash, o.n)
    {
      AvailableIs(m, o.hash, o.n);
    }
    SpendsKeepRest(m, vin);
    forall t, n: nat
      ensures Available(m0, t, n) <==> Available(m, t, n) && OutPoint(t, n) !in vin
      ensures Available(m0, t, n) ==> Out(m0, t, n) == Out(m, t, n)
    {
      SpendsLeaveOthers(m, vin, OutPoint(t, n));
      OutIs(m, t, n);
      OutIs(m0, t, n);
      AvailableIs(m, t, n);
      AvailableIs(m0, t, n);
    }
    CreateEffect(m0, tx, height);
    CreatedOnly(m0, Connect(m, TxOps(tx, height)).0, tx);
  }

  lemma CreateEffect(m: UtxoMap, tx: Tx, height: int)
    requires CanApply(m, OpCreate(tx, height))
    ensures var m1 := Apply(m, OpCreate(tx, height)).0;
            && (forall t :: t != tx.id ==> (t in m1 <==> t in m) && (t in m ==> m1[t] == m[t]))
            && (tx.id in m1 ==> Describes(m1[tx.id], tx, height))
            && (forall n: nat :: Available(m1, tx.id, n) <==> IsSpendable(tx, n))
            && (forall n: nat :: IsSpendable(tx, n) ==> Out(m1, tx.id, n) == OutOf(tx.vout, n))
  {
    CreatedIs(tx, height);
    hide FromTx;
  }

  // ---------- One block ----------

  /** What is unspent after a block: what was before or is made in the block, less what the block spends.  Entries from
      before keep what is known of them; new ones belong to a transaction of the block, and say what it says. */
  ghost predicate IsAfterBlock(m: UtxoMap, txs: seq<Tx>, height: int, m1: UtxoMap) {
    && (forall t, n: nat :: Available(m1, t, n) <==>
        (Available(m, t, n) || Made(txs, t, n)) && !SpentBy(txs, OutPoint(t, n)))
    && (forall t :: t in m1 && t in m ==> m1[t] == m[t].(vout := m1[t].vout))
    && (forall t, n: nat :: Available(m1, t, n) && t in m ==> Out(m1, t, n) == Out(m, t, n))
    && (forall t :: t in m1 && t !in m ==> exists i :: 0 <= i < |txs| && txs[i].id == t)
    && (forall i :: 0 <= i < |txs| && txs[i].id in m1 ==> Describes(m1[txs[i].id], txs[i], height))
    && (forall i, n: nat :: 0 <= i < |txs| && Available(m1, txs[i].id, n) ==>
        Out(m1, txs[i].id, n) == OutOf(txs[i].vout, n))
  }

  /** A block spends only what was there before, or is made in it. */
  ghost predicate SpendsWhatIsThere(m: UtxoMap, txs: seq<Tx>) {
    forall t, n: nat :: SpentBy(txs, OutPoint(t, n)) ==> Available(m, t, n) || Made(txs, t, n)
  }

  lemma {:induction false} InIds(txs: seq<Tx>, t: TxId)
    ensures t in Ids(txs) <==> exists i :: 0 <= i < |txs| && txs[i].id == t
  {
    if txs != [] {
      var init, last := txs[..|txs| - 1], txs[|txs| - 1];
      InIds(init, t);
      assert forall i :: 0 <= i < |init| ==> init[i] == txs[i];
    }
  }

  lemma MadeSnoc(txs: seq<Tx>, tx: Tx, t: TxId, n: nat)
    ensures Made(txs + [tx], t, n) <==> Made(txs, t, n) || (tx.id == t && IsSpendable(tx, n))
  {
    var all := txs + [tx];
    assert forall i :: 0 <= i < |txs| ==> all[i] == txs[i];
    assert all[|txs|] == tx;
  }

  lemma SpentSnoc(txs: seq<Tx>, tx: Tx, o: OutPoint)
    ensures SpentBy(txs + [tx], o) <==> SpentBy(txs, o) || o in InputsOf(tx)
  {
    var all := txs + [tx];
    assert forall i :: 0 <= i < |txs| ==> all[i] == txs[i];
    assert all[|txs|] == tx;
  }

  lemma NotYetMade(m: UtxoMap, txs: seq<Tx>, m1: UtxoMap, height: int, t: TxId)
    requires IsAfterBlock(m, txs, height, m1) && SpendsWhatIsThere(m, txs) && t !in m && t !in Ids(txs)
    ensures t !in m1 && forall n: nat :: !Made(txs, t, n) && !SpentBy(txs, OutPoint(t, n))
  {
    InIds(txs, t);
    forall n: nat
      ensures !Made(txs, t, n) && !SpentBy(txs, OutPoint(t, n))
    {
      assert !Available(m, t, n);
    }
  }

  /** How making and spending go on with another transaction. */
  ghost predicate GoesOn(txs: seq<Tx>, tx: Tx, all: seq<Tx>) {
    && all == txs + [tx]
    && (forall t, n: nat :: Made(all, t, n) <==> Made(txs, t, n) || (tx.id == t && IsSpendable(tx, n)))
    && (forall t, n: nat :: SpentBy(all, OutPoint(t, n)) <==>
        SpentBy(txs, OutPoint(t, n)) || OutPoint(t, n) in InputsOf(tx))
  }

  lemma ItGoesOn(txs: seq<Tx>, tx: Tx)
    ensures GoesOn(txs, tx, txs + [tx])
  {
    hide Made, SpentBy;
    forall t, n: nat
      ensures Made(txs + [tx], t, n) <==> Made(txs, t, n) || (tx.id == t && IsSpendable(tx, n))
      ensures SpentBy(txs + [tx], OutPoint(t, n)) <==> SpentBy(txs, OutPoint(t, n)) || OutPoint(t, n) in InputsOf(tx)
    {
      MadeSnoc(txs, tx, t, n);
      SpentSnoc(txs, tx, OutPoint(t, n));
    }
  }

  lemma OneMoreAvailable(m: UtxoMap, txs: seq<Tx>, m1: UtxoMap, tx: Tx, height: int, m2: UtxoMap, all: seq<Tx>)
    requires IsAfterBlock(m, txs, height, m1) && SpendsWhatIsThere(m, txs) && IsAfterTx(m1, tx, height, m2)
    requires tx.id !in m && tx.id !in m1 && GoesOn(txs, tx, all)
    requires forall n: nat :: !Made(txs, tx.id, n) && !SpentBy(txs, OutPoint(tx.id, n))
    ensures SpendsWhatIsThere(m, all)
    ensures forall t, n: nat :: Available(m2, t, n) <==>
              (Available(m, t, n) || Made(all, t, n)) && !SpentBy(all, OutPoint(t, n))
  {
    hide IsSpendable, Made, SpentBy, InputsOf, Describes;
    forall t, n: nat
      ensures OutPoint(t, n) in InputsOf(tx) ==> Available(m1, t, n)
    {
      assert OutPoint(t, n).hash == t && OutPoint(t, n).n == n;
    }
  }

  lemma OneMoreDescribed(m: UtxoMap, txs: seq<Tx>, m1: UtxoMap, tx: Tx, height: int, m2: UtxoMap, all: seq<Tx>)
    requires IsAfterBlock(m, txs, height, m1) && IsAfterTx(m1, tx, height, m2)
    requires tx.id !in m && all == txs + [tx] && forall i :: 0 <= i < |txs| ==> txs[i].id != tx.id
    ensures forall t :: t in m2 && t in m ==> m2[t] == m[t].(vout := m2[t].vout)
    ensures forall t, n: nat :: Available(m2, t, n) && t in m ==> Out(m2, t, n) == Out(m, t, n)
    ensures forall t :: t in m2 && t !in m ==> exists i :: 0 <= i < |all| && all[i].id == t
    ensures forall i :: 0 <= i < |all| && all[i].id in m2 ==> Describes(m2[all[i].id], all[i], height)
    ensures forall i, n: nat :: 0 <= i < |all| && Available(m2, all[i].id, n) ==>
              Out(m2, all[i].id, n) == OutOf(all[i].vout, n)
  {
    hide IsSpendable, Made, SpentBy, InputsOf, Available, OutOf;
    assert all[|txs|] == tx && forall i :: 0 <= i < |txs| ==> all[i] == txs[i];
    forall t | t in m2 && t !in m
      ensures exists i :: 0 <= i < |all| && all[i].id == t
    {
      if t != tx.id {
        var i :| 0 <= i < |txs| && txs[i].id == t;
        assert all[i].id == t;
      }
    }
  }

  lemma OneMoreTx(m: UtxoMap, txs: seq<Tx>, m1: UtxoMap, tx: Tx, height: int, m2: UtxoMap)
    requires IsAfterBlock(m, txs, height, m1) && SpendsWhatIsThere(m, txs) && IsAfterTx(m1, tx, height, m2)
    requires tx.id !in m && tx.id !in Ids(txs)
    ensures IsAfterBlock(m, txs + [tx], height, m2) && SpendsWhatIsThere(m, txs + [tx])
  {
    hide Available, IsSpendable, Made, SpentBy, InputsOf, Describes, GoesOn, SpendsWhatIsThere, IsAfterTx;
    InIds(txs, tx.id);
    ItGoesOn(txs, tx);
    NotYetMade(m, txs, m1, height, tx.id);
    OneMoreAvailable(m, txs, m1, tx, height, m2, txs + [tx]);
    OneMoreDescribed(m, txs, m1, tx, height, m2, txs + [tx]);
  }

  lemma {:induction false} BlockEffect(m: UtxoMap, txs: seq<Tx>, height: int)
    requires AllNew(m, txs) && height > 0 && CanConnect(m, BlockOps(txs, height))
    ensures IsAfterBlock(m, txs, height, Connect(m, BlockOps(txs, height)).0) && SpendsWhatIsThere(m, txs)
    decreases |txs|
  {
    hide CanConnect, Connect, TxOps, BlockOps, TxShape, IsAfterBlock, SpendsWhatIsThere, AllNew, IsAfterTx, Ids;
    if txs == [] {
      NothingMade(m, height);
    } else {
      var init, tx := txs[..|txs| - 1], txs[|txs| - 1];
      assert txs == init + [tx];
      AllNewAt(m, txs, |txs| - 1);
      BlockOpsSnoc(init, tx, height);
      ConnectConcat(m, BlockOps(init, height), TxOps(tx, height));
      BlockEffect(m, init, height);
      var m1 := Connect(m, BlockOps(init, height)).0;
      NotYetMade(m, init, m1, height, tx.id);
      TxEffect(m1, tx, height);
      OneMoreTx(m, init, m1, tx, height, Connect(m1, TxOps(tx, height)).0);
    }
  }

  lemma BlockOpsSnoc(txs: seq<Tx>, tx: Tx, height: int)
    ensures BlockOps(txs + [tx], height) == BlockOps(txs, height) + TxOps(tx, height)
  {
    assert (txs + [tx])[..|txs|] == txs;
  }

  lemma NothingMade(m: UtxoMap, height: int)
    ensures BlockOps([], height) == [] && CanConnect(m, []) && Connect(m, []).0 == m
    ensures IsAfterBlock(m, [], height, m) && SpendsWhatIsThere(m, [])
  {
  }

  // ---------- Undoing ----------

  /** Two lists of outputs, each ending in an unspent one and otherwise blank where spent, are the same if the same
      outputs are unspent in both. */
  lemma SameOutputs(v: seq<TxOut>, w: seq<TxOut>)
    requires v != [] ==> !v[|v| - 1].IsNull()
    requires w != [] ==> !w[|w| - 1].IsNull()
    requires forall n :: 0 <= n < |v| && v[n].IsNull() ==> v[n] == NULL_OUT
    requires forall n :: 0 <= n < |w| && w[n].IsNull() ==> w[n] == NULL_OUT
    ensures v == w <==> forall n: nat :: OutOf(v, n) == OutOf(w, n)
  {
    if forall n: nat :: OutOf(v, n) == OutOf(w, n) {
      NotLonger(v, w);
      NotLonger(w, v);
      assert forall n :: 0 <= n < |v| ==> OutOf(v, n) == v[n] && OutOf(w, n) == w[n];
    }
  }

  lemma NotLonger(v: seq<TxOut>, w: seq<TxOut>)
    requires v != [] ==> !v[|v| - 1].IsNull()
    requires forall n: nat :: OutOf(v, n) == OutOf(w, n)
    ensures |v| <= |w|
  {
    if v != [] {
      var last := |v| - 1;
      assert OutOf(v, last) == OutOf(w, last);
    }
  }

  /** An output without those that can never be spent. */
  function Cleared(o: TxOut): TxOut { if |o.script| > 0 && o.script[0] == 0x6a then NULL_OUT else o }

  lemma ClearedIs(c: Coins)
    ensures var d := ClearUnspendable(c);
            && d == c.(vout := d.vout) && (d.vout != [] ==> !d.vout[|d.vout| - 1].IsNull())
            && ((forall n :: 0 <= n < |c.vout| && c.vout[n].IsNull() ==> c.vout[n] == NULL_OUT) ==>
                && (forall n :: 0 <= n < |d.vout| && d.vout[n].IsNull() ==> d.vout[n] == NULL_OUT)
                && forall n: nat :: OutOf(d.vout, n) == Cleared(OutOf(c.vout, n)))
  {
    var all := Spendable(c.vout);
    assert Trim(all) == all[..|Trim(all)|];
  }

  /** The outputs of a transaction are found to be as it made them if and only if none is spent and none is different;
      a negative version is not compared. */
  lemma UntouchedIff(m: UtxoMap, tx: Tx, height: int)
    requires MapOk(m) && forall i :: 0 <= i < |tx.vout| ==> tx.vout[i].value >= 0
    ensures Revert(m, OpCreate(tx, height), UndoCreate).0 == m - {tx.id}
    ensures Revert(m, OpCreate(tx, height), UndoCreate).1 <==>
            && (forall n: nat :: Cleared(Out(m, tx.id, n)) == Cleared(OutOf(tx.vout, n)))
            && ((exists n: nat :: IsSpendable(tx, n)) ==>
                tx.id in m
                && Describes(m[tx.id].(version := if tx.version < 0 then tx.version else m[tx.id].version), tx, height))
  {
    hide FromTx, ClearUnspendable, Cleared, OutOf, IsSpendable, Coins.IsPruned;
    var c, b := Entry(m, tx.id), FromTx(tx, height);
    CreatedIs(tx, height);
    CreatedIsClear(tx, height);
    CreatedOutputs(tx, height);
    ClearedIs(c);
    ClearedIs(b);
    EntryOutputs(m, tx.id);
    SameOutputs(ClearUnspendable(c).vout, b.vout);
    PrunedIff(ClearUnspendable(c));
    PrunedIff(ClearUnspendable(c).(version := b.version));
    PrunedIff(b);
    UntouchedBody(c, tx, height);
    var same := forall n: nat :: Cleared(Out(m, tx.id, n)) == Cleared(OutOf(tx.vout, n));
    var d := ClearUnspendable(c);
    assert same <==> d.vout == b.vout by {
      assert same <==> forall n: nat :: OutOf(d.vout, n) == OutOf(b.vout, n);
    }
    assert same && b.vout != [] ==> tx.id in m;
    assert b.vout == [] ==> (Untouched(c, tx, height) <==> same);
    assert b.vout != [] ==>
      (Untouched(c, tx, height) <==>
       same && d.(version := b.version) == b && (b.version < 0 || d.version == b.version));
  }

  lemma EntryOutputs(m: UtxoMap, t: TxId)
    requires MapOk(m)
    ensures var c := Entry(m, t);
            && (forall n :: 0 <= n < |c.vout| && c.vout[n].IsNull() ==> c.vout[n] == NULL_OUT)
            && (forall n: nat :: OutOf(c.vout, n) == Out(m, t, n))
            && (t !in m ==> ClearUnspendable(c).vout == [])
  {
  }

  lemma CreatedOutputs(tx: Tx, height: int)
    requires forall i :: 0 <= i < |tx.vout| ==> tx.vout[i].value >= 0
    ensures var b := FromTx(tx, height);
            && (forall n: nat :: OutOf(b.vout, n) == Cleared(OutOf(tx.vout, n)))
            && (forall n :: 0 <= n < |b.vout| && b.vout[n].IsNull() ==> b.vout[n] == NULL_OUT)
            && (b.vout != [] <==> exists n: nat :: IsSpendable(tx, n))
  {
    CreatedIs(tx, height);
    ClearedIs(Coins(tx.IsCoinBase(), tx.IsCoinStake(), tx.vout, height, tx.version));
    var b := FromTx(tx, height);
    if b.vout != [] {
      assert IsSpendable(tx, |b.vout| - 1);
    }
  }

  lemma UntouchedBody(c: Coins, tx: Tx, height: int)
    ensures var (d, b) := (ClearUnspendable(c), FromTx(tx, height));
            Untouched(c, tx, height) <==>
            var e := if b.version < 0 then d.(version := b.version) else d;
            (e.IsPruned() && b.IsPruned()) || e == b
  {
    hide FromTx, ClearUnspendable, Coins.IsPruned;
  }

  lemma PrunedIff(c: Coins)
    requires c.vout != [] ==> !c.vout[|c.vout| - 1].IsNull()
    ensures c.IsPruned() <==> c.vout == []
  {
  }

  lemma TrimmedOutputs(v: seq<TxOut>)
    ensures forall n: nat :: OutOf(v, n).value != -1 ==> OutOf(Trim(v), n) == OutOf(v, n)
    ensures forall n: nat :: OutOf(Trim(v), n).value != -1 ==> OutOf(Trim(v), n) == OutOf(v, n)
  {
    var w := Trim(v);
    assert w == v[..|w|];
    assert forall n :: |w| <= n < |v| ==> v[n].IsNull();
  }

  /** What is known of an entry that an input gives back: what was recorded, if this was the last output; the stake flag
      is not. */
  predicate IsGivenBack(c: Coins, was: Coins, u: TxInUndo) {
    if u.height == 0 then c == was.(vout := c.vout)
    else c.coinBase == u.coinBase && !c.coinStake && c.height == u.height && c.version == u.version
  }

  /** Giving an input back is clean if and only if the record has the rest exactly if the entry has gone, and the output
      is not there; then the output is there again, and nothing else is different. */
  lemma GivenBack(m: UtxoMap, out: OutPoint, u: TxInUndo)
    requires MapOk(m) && u.txout.value != -1
    ensures var (z, clean) := Revert(m, OpSpend(out), UndoSpend(u));
            && (clean <==> (u.height != 0 <==> out.hash !in m) && !Available(m, out.hash, out.n))
            && (clean ==>
                && out.hash in z && IsGivenBack(z[out.hash], Entry(m, out.hash), u)
                && Out(z, out.hash, out.n) == u.txout
                && (forall t :: t != out.hash ==> (t in z <==> t in m) && (t in m ==> z[t] == m[t]))
                && forall n: nat :: n != out.n ==>
                     (Available(z, out.hash, n) <==> Available(m, out.hash, n))
                     && (Available(m, out.hash, n) ==> Out(z, out.hash, n) == Out(m, out.hash, n)))
  {
    var c := Entry(m, out.hash);
    var d := if u.height != 0 then Coins(u.coinBase, false, [], u.height, u.version) else c;
    var v := PutOut(d.vout, out.n, u.txout);
    TrimmedOutputs(v);
    assert v[out.n] == u.txout && OutOf(Trim(v), out.n) == u.txout;
    if out.hash in m {
      WellKeptIsUnspent(m[out.hash]);
    }
    hide Trim, PutOut;
  }
}
