/** Connecting a block's transactions to a cache of unspent outputs and disconnecting them again. */
module BlockConnection {
  import opened CoinsSpec
  import opened CoinsView
  import opened Connection
  import opened Supply
  import opened BlockEffects

  lemma {:induction false} CleanupTwice(c: Coins)
    ensures Cleanup(Cleanup(c)) == Cleanup(c)
  {
    TrimKept(Trim(c.vout));
  }

  // ---------- Connecting ----------

  method HaveInputs(view: CoinsViewCache, tx: Tx) returns (have: bool)
    requires view.Valid() && !view.hasModifier
    modifies view.Repr
    ensures view.Valid() && !view.hasModifier && view.View() == old(view.View())
            && view.BestBlock() == old(view.BestBlock())
    ensures have <==> InputsThere(view.View(), InputsOf(tx))
  {
    hide Overlay, EntriesOk, Coins.IsPruned;
    if !tx.IsCoinBase() {
      for i := 0 to |tx.vin|
        invariant view.Valid() && !view.hasModifier && view.View() == old(view.View())
                  && view.BestBlock() == old(view.BestBlock())
        invariant InputsThere(view.View(), tx.vin[..i])
      {
        var found, coins := view.GetCoins(tx.vin[i].hash);
        if !found || !coins.IsAvailable(tx.vin[i].n) {
          assert !CanApply(view.View(), OpSpend(tx.vin[i]));
          return false;
        }
      }
      assert tx.vin[..|tx.vin|] == tx.vin;
    }
    have := true;
  }

  method GetValueIn(view: CoinsViewCache, tx: Tx) returns (value: int)
    requires view.Valid() && !view.hasModifier && InputsThere(view.View(), InputsOf(tx))
    modifies view.Repr
    ensures view.Valid() && !view.hasModifier && view.View() == old(view.View())
            && view.BestBlock() == old(view.BestBlock())
    ensures value == ValueIn(view.View(), InputsOf(tx))
  {
    hide Overlay, EntriesOk, Coins.IsPruned;
    value := 0;
    if !tx.IsCoinBase() {
      for i := 0 to |tx.vin|
        invariant view.Valid() && !view.hasModifier && view.View() == old(view.View())
                  && view.BestBlock() == old(view.BestBlock())
        invariant value == ValueIn(view.View(), tx.vin[..i])
      {
        assert tx.vin[..i + 1][..i] == tx.vin[..i];
        var out := tx.vin[i];
        var found, coins := view.GetCoins(out.hash);
        assert found && coins.IsAvailable(out.n);
        value := value + coins.vout[out.n].value;
      }
      assert tx.vin[..|tx.vin|] == tx.vin;
    }
  }

  method GetValueOut(tx: Tx) returns (value: int)
    ensures value == ValueOut(tx.vout)
  {
    value := 0;
    for i := 0 to |tx.vout|
      invariant value == ValueOut(tx.vout[..i])
    {
      assert tx.vout[..i + 1][..i] == tx.vout[..i];
      value := value + tx.vout[i].value;
    }
    assert tx.vout[..|tx.vout|] == tx.vout;
  }

  /** Spends one input that is there. */
  method SpendInput(view: CoinsViewCache, out: OutPoint) returns (undo: TxInUndo)
    requires view.Valid() && !view.hasModifier && CanApply(view.View(), OpSpend(out))
    modifies view.Repr
    ensures view.Valid() && !view.hasModifier && view.BestBlock() == old(view.BestBlock())
    ensures Apply(old(view.View()), OpSpend(out)) == (view.View(), UndoSpend(undo))
  {
    var coins := view.ModifyCoins(out.hash);
    ghost var c := coins.coins;
    var ret;
    ret, undo := coins.Spend(out);
    assert ret;
    CleanupTwice(c.(vout := c.vout[out.n := NULL_OUT]));
    coins.Release();
  }

  method CreateOutputs(view: CoinsViewCache, tx: Tx, height: int)
    requires view.Valid() && !view.hasModifier && CanApply(view.View(), OpCreate(tx, height))
    modifies view.Repr
    ensures view.Valid() && !view.hasModifier && view.BestBlock() == old(view.BestBlock())
    ensures Apply(old(view.View()), OpCreate(tx, height)) == (view.View(), UndoCreate)
  {
    var coins := view.ModifyCoins(tx.id);
    coins.FromTx(tx, height);
    CleanupTwice(Coins(tx.IsCoinBase(), tx.IsCoinStake(), Spendable(tx.vout), height, tx.version));
    coins.Release();
  }

  method UpdateCoins(view: CoinsViewCache, tx: Tx, height: int) returns (txundo: seq<TxInUndo>)
    requires view.Valid() && !view.hasModifier && CanConnect(view.View(), TxOps(tx, height))
    modifies view.Repr
    ensures view.Valid() && !view.hasModifier && view.BestBlock() == old(view.BestBlock())
    ensures |txundo| == |InputsOf(tx)|
    ensures Connect(old(view.View()), TxOps(tx, height)) == (view.View(), TxUndos(txundo))
  {
    hide CanConnect, Connect, CanApply, Apply;
    ghost var m, spends := view.View(), Spends(InputsOf(tx));
    ConnectSnoc(m, spends, OpCreate(tx, height));
    txundo := [];
    NoSpends(m);
    if !tx.IsCoinBase() {
      for i := 0 to |tx.vin|
        invariant view.Valid() && !view.hasModifier && view.BestBlock() == old(view.BestBlock())
        invariant CanConnect(m, Spends(tx.vin[..i])) && |txundo| == i
        invariant Connect(m, Spends(tx.vin[..i])) == (view.View(), SpendUndos(txundo))
      {
        NextSpend(m, tx.vin, i);
        var undo := SpendInput(view, tx.vin[i]);
        InputUndosSnoc(txundo, undo);
        txundo := txundo + [undo];
      }
      assert tx.vin[..|tx.vin|] == tx.vin;
    }
    CreateOutputs(view, tx, height);
  }

  lemma NoSpends(m: UtxoMap)
    ensures CanConnect(m, Spends([])) && Connect(m, Spends([])) == (m, SpendUndos([]))
  {
  }

  lemma InputUndosSnoc(txundo: seq<TxInUndo>, undo: TxInUndo)
    ensures SpendUndos(txundo + [undo]) == SpendUndos(txundo) + [UndoSpend(undo)]
  {
  }

  /** The undo records of all transactions; the coinbase's is empty and not kept. */
  function AllUndos(vtxundo: seq<seq<TxInUndo>>): seq<seq<TxInUndo>> { [[]] + vtxundo }

  /** The undo records of the first `i` transactions. */
  function UndosSoFar(vtxundo: seq<seq<TxInUndo>>, i: nat): seq<Undo> {
    if i == 0 then [] else BlockUndos(AllUndos(vtxundo))
  }

  lemma UndosOfNext(vtxundo: seq<seq<TxInUndo>>, i: nat, txundo: seq<TxInUndo>)
    requires i == 0 ==> vtxundo == [] && txundo == []
    ensures UndosSoFar(if i > 0 then vtxundo + [txundo] else vtxundo, i + 1) == UndosSoFar(vtxundo, i) + TxUndos(txundo)
  {
    if i > 0 {
      assert ([[]] + (vtxundo + [txundo]))[..|vtxundo| + 1] == [[]] + vtxundo;
    } else {
      assert [[]] + vtxundo == [txundo] && BlockUndos([]) == [];
      assert [] + TxUndos(txundo) == TxUndos(txundo);
    }
  }

  /** Every transaction has an undo record for each of its inputs.  (Here and below, compared with `true` so that the
      verifier passes it around as one fact.) */
  predicate Complete(txs: seq<Tx>, undos: seq<seq<TxInUndo>>) {
    true == (|undos| == |txs| && forall k :: 0 <= k < |txs| ==> |undos[k]| == |InputsOf(txs[k])|)
  }

  ghost predicate CompleteSoFar(txs: seq<Tx>, vtxundo: seq<seq<TxInUndo>>, i: nat) {
    true == (
      && |vtxundo| == (if i == 0 then 0 else i - 1) < |txs|
      && forall k :: 0 <= k < |vtxundo| ==> |vtxundo[k]| == |InputsOf(txs[k + 1])|)
  }

  /** Connects one transaction if its inputs are there; tells what goes into it and out of it. */
  method ConnectTx(view: CoinsViewCache, tx: Tx, height: int)
    returns (ok: bool, txundo: seq<TxInUndo>, valueIn: int, valueOut: int)
    requires view.Valid() && !view.hasModifier && TxShape(tx) && tx.id !in view.View() && height > 0
    modifies view.Repr
    ensures view.Valid() && !view.hasModifier && view.BestBlock() == old(view.BestBlock())
    ensures ok <==> CanConnect(old(view.View()), TxOps(tx, height))
    ensures ok ==> |txundo| == |InputsOf(tx)|
    ensures ok ==> Reached(old(view.View()), TxOps(tx, height), view.View(), TxUndos(txundo), valueOut - valueIn)
  {
    TxConnects(view.View(), tx, height);
    if InputsThere(view.View(), InputsOf(tx)) {
      TxMints(view.View(), tx, height);
    }
    hide InputsThere, CanConnect, Connect, TxOps, TxUndos, Minted, ValueIn, ValueOut;
    valueIn, valueOut, txundo := 0, 0, [];
    ok := HaveInputs(view, tx);
    if ok {
      valueIn := GetValueIn(view, tx);
      valueOut := GetValueOut(tx);
      txundo := UpdateCoins(view, tx, height);
    }
  }

  lemma NextTxIsNew(m: UtxoMap, txs: seq<Tx>, height: int, i: nat, m1: UtxoMap, us: seq<Undo>, minted: int)
    requires BlockShape(m, txs) && height > 0 && i < |txs| && Reached(m, BlockOps(txs[..i], height), m1, us, minted)
    ensures txs[i].id !in m1 && TxShape(txs[i])
  {
    AllNewAt(m, txs, i);
    NextTxConnects(m, txs, height, i);
  }

  lemma NextTxIsLast(m: UtxoMap, txs: seq<Tx>, height: int, i: nat, m1: UtxoMap, us: seq<Undo>, minted: int)
    requires BlockShape(m, txs) && height > 0 && i < |txs| && Reached(m, BlockOps(txs[..i], height), m1, us, minted)
    requires !CanConnect(m1, TxOps(txs[i], height))
    ensures !CanConnect(m, BlockOps(txs, height))
  {
    NextTxConnects(m, txs, height, i);
    if CanConnect(m, BlockOps(txs, height)) {
      PrefixConnects(m, txs, height, i + 1);
    }
  }

  lemma NextTx(m: UtxoMap, txs: seq<Tx>, height: int, i: nat, m1: UtxoMap, us: seq<Undo>, minted: int, m2: UtxoMap,
               us2: seq<Undo>, more: int)
    requires i < |txs| && Reached(m, BlockOps(txs[..i], height), m1, us, minted)
    requires Reached(m1, TxOps(txs[i], height), m2, us2, more)
    ensures Reached(m, BlockOps(txs[..i + 1], height), m2, us + us2, minted + more)
  {
    BlocksSnoc(txs, height, i);
    hide *;
    ReachMore(m, BlockOps(txs[..i], height), m1, us, minted, TxOps(txs[i], height), m2, us2, more);
  }

  lemma BlocksSnoc(txs: seq<Tx>, height: int, i: nat)
    requires i < |txs|
    ensures BlockOps(txs[..i + 1], height) == BlockOps(txs[..i], height) + TxOps(txs[i], height)
  {
    assert txs[..i + 1][..i] == txs[..i];
  }

  lemma RecordsAreKept(m: UtxoMap, txs: seq<Tx>, vtxundo: seq<seq<TxInUndo>>, i: nat, txundo: seq<TxInUndo>)
    requires BlockShape(m, txs) && i < |txs| && CompleteSoFar(txs, vtxundo, i) && |txundo| == |InputsOf(txs[i])|
    ensures i == 0 ==> vtxundo == [] && txundo == []
    ensures CompleteSoFar(txs, if i > 0 then vtxundo + [txundo] else vtxundo, i + 1)
  {
  }

  /** Connects the next transaction of a block, keeping its undo record unless it is the coinbase. */
  method ConnectNext(view: CoinsViewCache, txs: seq<Tx>, height: int, i: nat, vtxundo: seq<seq<TxInUndo>>,
                     ghost m: UtxoMap, ghost minted: int)
    returns (ok: bool, more: seq<seq<TxInUndo>>, valueIn: int, valueOut: int)
    requires view.Valid() && !view.hasModifier && BlockShape(m, txs) && height > 0 && i < |txs|
    requires CompleteSoFar(txs, vtxundo, i)
    requires Reached(m, BlockOps(txs[..i], height), view.View(), UndosSoFar(vtxundo, i), minted)
    modifies view.Repr
    ensures view.Valid() && !view.hasModifier && view.BestBlock() == old(view.BestBlock())
    ensures !ok ==> !CanConnect(m, BlockOps(txs, height))
    ensures ok ==>
            Reached(m, BlockOps(txs[..i + 1], height), view.View(), UndosSoFar(more, i + 1),
                    minted + valueOut - valueIn)
    ensures ok ==> CompleteSoFar(txs, more, i + 1)
  {
    hide CanConnect, Connect, Reached, BlockOps, BlockUndos, BlockShape, AllNew, TxShape, UndosSoFar, CompleteSoFar,
      InputsOf;
    ghost var m1 := view.View();
    NextTxIsNew(m, txs, height, i, m1, UndosSoFar(vtxundo, i), minted);
    var txundo;
    ok, txundo, valueIn, valueOut := ConnectTx(view, txs[i], height);
    more := vtxundo;
    if ok {
      NextTx(m, txs, height, i, m1, UndosSoFar(vtxundo, i), minted, view.View(), TxUndos(txundo), valueOut - valueIn);
      RecordsAreKept(m, txs, vtxundo, i, txundo);
      UndosOfNext(vtxundo, i, txundo);
      if i > 0 {
        more := vtxundo + [txundo];
      }
    } else {
      NextTxIsLast(m, txs, height, i, m1, UndosSoFar(vtxundo, i), minted);
    }
  }

  /** Connects the transactions in order, stopping at the first whose inputs are not there. */
  method ConnectAll(view: CoinsViewCache, txs: seq<Tx>, height: int, ghost m: UtxoMap)
    returns (ok: bool, vtxundo: seq<seq<TxInUndo>>, totalIn: int, totalOut: int)
    requires view.Valid() && !view.hasModifier && view.View() == m && BlockShape(m, txs) && height > 0
    modifies view.Repr
    ensures view.Valid() && !view.hasModifier && view.BestBlock() == old(view.BestBlock())
    ensures !ok ==> !CanConnect(m, BlockOps(txs, height))
    ensures ok ==> CompleteSoFar(txs, vtxundo, |txs|)
    ensures ok ==>
            Reached(m, BlockOps(txs[..|txs|], height), view.View(), UndosSoFar(vtxundo, |txs|), totalOut - totalIn)
  {
    hide CanConnect, Connect, Reached, BlockOps, BlockUndos, BlockShape, AllNew, TxShape, UndosSoFar, CompleteSoFar,
      Complete, AllUndos;
    NothingReached(m, txs, height);
    vtxundo, totalIn, totalOut := [], 0, 0;
    for i := 0 to |txs|
      invariant view.Valid() && !view.hasModifier && view.BestBlock() == old(view.BestBlock())
      invariant CompleteSoFar(txs, vtxundo, i)
      invariant Reached(m, BlockOps(txs[..i], height), view.View(), UndosSoFar(vtxundo, i), totalOut - totalIn)
    {
      var valueIn, valueOut;
      ok, vtxundo, valueIn, valueOut := ConnectNext(view, txs, height, i, vtxundo, m, totalOut - totalIn);
      if !ok {
        return;
      }
      totalIn, totalOut := totalIn + valueIn, totalOut + valueOut;
    }
    ok := true;
  }

  /** Connects a block to the view, unless some input is not there.  Tells the undo records, with none for the
      coinbase, and the money supply after the block. */
  method ConnectBlock(view: CoinsViewCache, txs: seq<Tx>, height: int, hash: Hash, supplyBefore: int)
    returns (ok: bool, vtxundo: seq<seq<TxInUndo>>, supply: int)
    requires view.Valid() && !view.hasModifier && BlockShape(view.View(), txs) && height > 0 && hash != 0
    modifies view.Repr
    ensures view.Valid() && !view.hasModifier
    ensures view.BestBlock() == if ok then hash else old(view.BestBlock())
    ensures ok <==> CanConnect(old(view.View()), BlockOps(txs, height))
    ensures ok ==> Complete(txs, AllUndos(vtxundo)) && IsAfterBlock(old(view.View()), txs, height, view.View())
    ensures ok ==>
            Reached(old(view.View()), BlockOps(txs, height), view.View(), BlockUndos(AllUndos(vtxundo)),
                    supply - supplyBefore)
  {
    hide IsAfterBlock, CanConnect, Connect, Reached, BlockOps, BlockUndos, BlockShape, AllNew, TxShape, UndosSoFar,
      CompleteSoFar, Complete, AllUndos;
    ghost var m := view.View();
    NothingReached(m, txs, height);
    var totalIn, totalOut;
    ok, vtxundo, totalIn, totalOut := ConnectAll(view, txs, height, m);
    supply := supplyBefore + totalOut - totalIn;
    if ok {
      AllReached(m, txs, height, view.View(), vtxundo, totalOut - totalIn);
      ReachedBlock(m, txs, height, view.View(), BlockUndos(AllUndos(vtxundo)), totalOut - totalIn);
      view.SetBestBlock(hash);
    }
  }

  lemma NothingReached(m: UtxoMap, txs: seq<Tx>, height: int)
    ensures Reached(m, BlockOps(txs[..0], height), m, UndosSoFar([], 0), 0)
    ensures BlockShape(m, txs) ==> txs != [] && CompleteSoFar(txs, [], 0)
  {
  }

  lemma AllReached(m: UtxoMap, txs: seq<Tx>, height: int, m1: UtxoMap, vtxundo: seq<seq<TxInUndo>>, minted: int)
    requires BlockShape(m, txs) && CompleteSoFar(txs, vtxundo, |txs|)
    requires Reached(m, BlockOps(txs[..|txs|], height), m1, UndosSoFar(vtxundo, |txs|), minted)
    ensures CanConnect(m, BlockOps(txs, height)) && Complete(txs, AllUndos(vtxundo))
    ensures Reached(m, BlockOps(txs, height), m1, BlockUndos(AllUndos(vtxundo)), minted)
  {
    assert txs[..|txs|] == txs;
  }

  lemma ReachedBlock(m: UtxoMap, txs: seq<Tx>, height: int, m1: UtxoMap, us: seq<Undo>, minted: int)
    requires BlockShape(m, txs) && height > 0 && Reached(m, BlockOps(txs, height), m1, us, minted)
    ensures IsAfterBlock(m, txs, height, m1)
  {
    hide IsAfterBlock, CanConnect, Connect, BlockOps, AllNew, Minted;
    BlockEffect(m, txs, height);
  }

  // ---------- Disconnecting ----------

  /** Blanks an entry, telling whether it was as the transaction had created it. */
  method CheckAndClear(outs: CoinsModifier, tx: Tx, height: int) returns (clean: bool)
    modifies outs`coins
    ensures clean <==> Untouched(old(outs.coins), tx, height)
    ensures outs.coins == NO_COINS
  {
    outs.ClearUnspendable();
    var outsBlock := FromTx(tx, height);
    if outsBlock.version < 0 {
      outs.coins := outs.coins.(version := outsBlock.version);
    }
    clean := SameCoins(outs.coins, outsBlock);
    outs.coins := NO_COINS;
  }

  /** Removes the outputs of a transaction, telling whether they were as it had created them. */
  method RemoveOutputs(view: CoinsViewCache, tx: Tx, height: int) returns (clean: bool)
    requires view.Valid() && !view.hasModifier
    modifies view.Repr
    ensures view.Valid() && !view.hasModifier && view.BestBlock() == old(view.BestBlock())
    ensures (view.View(), clean) == Revert(old(view.View()), OpCreate(tx, height), UndoCreate)
  {
    hide Untouched;
    assert Cleanup(NO_COINS).IsPruned();
    hide Cleanup;
    var outs := view.ModifyCoins(tx.id);
    SpentIsUntouchedToo(outs.coins, tx, height);
    clean := CheckAndClear(outs, tx, height);
    outs.Release();
  }

  /** What is left of a fully spent entry does not matter in the comparison. */
  lemma SpentIsUntouchedToo(c: Coins, tx: Tx, height: int)
    requires Tidy(c)
    ensures c.IsPruned() ==> (Untouched(c, tx, height) <==> Untouched(NO_COINS, tx, height))
  {
    if c.IsPruned() {
      assert ClearUnspendable(c).vout == [] && ClearUnspendable(NO_COINS).vout == [];
    }
  }

  /** Puts an output back into an entry. */
  method PutBack(coins: CoinsModifier, n: nat, undo: TxInUndo) returns (clean: bool)
    modifies coins`coins
    ensures (Cleanup(coins.coins), clean) == Restore(old(coins.coins), n, undo)
  {
    clean := true;
    if undo.height != 0 {
      if !coins.coins.IsPruned() {
        clean := false;
      }
      coins.coins := Coins(undo.coinBase, false, [], undo.height, undo.version);
    } else if coins.coins.IsPruned() {
      clean := false;
    }
    if coins.coins.IsAvailable(n) {
      clean := false;
    }
    var vout := coins.coins.vout;
    if |vout| < n + 1 {
      vout := vout + seq(n + 1 - |vout|, i => NULL_OUT);
    }
    vout := vout[n := undo.txout];
    assert vout == PutOut(coins.coins.vout, n, undo.txout);
    coins.coins := coins.coins.(vout := vout);
  }

  /** Nor does it matter when an input is given back, unless the undo record does not know it was the last. */
  lemma RestoreSpent(c: Coins, n: nat, undo: TxInUndo)
    requires c.IsPruned()
    ensures Restore(c, n, undo).1 <==> Restore(NO_COINS, n, undo).1
    ensures Restore(c, n, undo).1 ==> Restore(c, n, undo) == Restore(NO_COINS, n, undo)
  {
  }

  /** Gives one input back. */
  method RestoreInput(view: CoinsViewCache, out: OutPoint, undo: TxInUndo) returns (clean: bool)
    requires view.Valid() && !view.hasModifier
    modifies view.Repr
    ensures view.Valid() && !view.hasModifier && view.BestBlock() == old(view.BestBlock())
    ensures clean <==> Revert(old(view.View()), OpSpend(out), UndoSpend(undo)).1
    ensures clean ==> view.View() == Revert(old(view.View()), OpSpend(out), UndoSpend(undo)).0
  {
    hide Restore, Cleanup;
    var coins := view.ModifyCoins(out.hash);
    if coins.coins.IsPruned() {
      RestoreSpent(coins.coins, out.n, undo);
    }
    clean := PutBack(coins, out.n, undo);
    coins.Release();
  }

  method RestoreInputs(view: CoinsViewCache, vin: seq<OutPoint>, txundo: seq<TxInUndo>) returns (clean: bool)
    requires view.Valid() && !view.hasModifier && |txundo| == |vin|
    modifies view.Repr
    ensures view.Valid() && !view.hasModifier && view.BestBlock() == old(view.BestBlock())
    ensures clean <==> Disconnect(old(view.View()), Spends(vin), SpendUndos(txundo)).1
    ensures clean ==> view.View() == Disconnect(old(view.View()), Spends(vin), SpendUndos(txundo)).0
  {
    clean := true;
    ghost var total := Disconnect(view.View(), Spends(vin), SpendUndos(txundo));
    assert vin[..|vin|] == vin && txundo[..|vin|] == txundo;
    var j := |vin|;
    while j > 0
      invariant 0 <= j <= |vin|
      invariant view.Valid() && !view.hasModifier && view.BestBlock() == old(view.BestBlock())
      invariant if clean then total == Disconnect(view.View(), Spends(vin[..j]), SpendUndos(txundo[..j])) else !total.1
    {
      j := j - 1;
      LastInput(view.View(), vin, txundo, j);
      var fine := RestoreInput(view, vin[j], txundo[j]);
      clean := clean && fine;
    }
  }

  lemma LastInput(m: UtxoMap, vin: seq<OutPoint>, txundo: seq<TxInUndo>, j: nat)
    requires j < |vin| == |txundo|
    ensures var (m1, clean1) := Revert(m, OpSpend(vin[j]), UndoSpend(txundo[j]));
            var (m2, clean2) := Disconnect(m1, Spends(vin[..j]), SpendUndos(txundo[..j]));
            Disconnect(m, Spends(vin[..j + 1]), SpendUndos(txundo[..j + 1])) == (m2, clean1 && clean2)
  {
    assert Spends(vin[..j + 1]) == Spends(vin[..j]) + [OpSpend(vin[j])];
    assert SpendUndos(txundo[..j + 1]) == SpendUndos(txundo[..j]) + [UndoSpend(txundo[j])];
    DisconnectSnoc(m, Spends(vin[..j]), SpendUndos(txundo[..j]), OpSpend(vin[j]), UndoSpend(txundo[j]));
  }

  lemma {:induction false} CompleteLengths(txs: seq<Tx>, height: int, undos: seq<seq<TxInUndo>>, i: nat)
    requires i <= |txs| && Complete(txs, undos)
    ensures |BlockOps(txs[..i], height)| == |BlockUndos(undos[..i])|
  {
    if i > 0 {
      CompleteLengths(txs, height, undos, i - 1);
      assert txs[..i][..i - 1] == txs[..i - 1] && undos[..i][..i - 1] == undos[..i - 1];
    }
  }

  /** Undoing the first `i` transactions of a block. */
  ghost function Undone(m: UtxoMap, txs: seq<Tx>, height: int, undos: seq<seq<TxInUndo>>, i: nat): (UtxoMap, bool)
    requires i <= |txs| && Complete(txs, undos)
  {
    CompleteLengths(txs, height, undos, i);
    Disconnect(m, BlockOps(txs[..i], height), BlockUndos(undos[..i]))
  }

  lemma LastTxUndone(m: UtxoMap, txs: seq<Tx>, height: int, undos: seq<seq<TxInUndo>>, i: nat)
    requires i < |txs| && Complete(txs, undos)
    ensures var (m1, clean1) := Revert(m, OpCreate(txs[i], height), UndoCreate);
            var (m2, clean2) := Disconnect(m1, Spends(InputsOf(txs[i])), SpendUndos(undos[i]));
            var (m3, clean3) := Undone(m2, txs, height, undos, i);
            Undone(m, txs, height, undos, i + 1) == (m3, clean3 && clean2 && clean1)
  {
    hide BlockOps, Revert, Disconnect;
    BlocksSnoc(txs, height, i);
    assert undos[..i + 1][..i] == undos[..i];
    CompleteLengths(txs, height, undos, i);
    DisconnectConcat(m, BlockOps(txs[..i], height), TxOps(txs[i], height), BlockUndos(undos[..i]), TxUndos(undos[i]));
    DisconnectSnoc(m, Spends(InputsOf(txs[i])), SpendUndos(undos[i]), OpCreate(txs[i], height), UndoCreate);
  }

  /** Undoes one transaction; fails if its undo record does not fit. */
  method DisconnectTx(view: CoinsViewCache, tx: Tx, height: int, txundo: seq<TxInUndo>) returns (ok: bool, clean: bool)
    requires view.Valid() && !view.hasModifier && (tx.IsCoinBase() ==> txundo == [])
    modifies view.Repr
    ensures view.Valid() && !view.hasModifier && view.BestBlock() == old(view.BestBlock())
    ensures ok <==> |txundo| == |InputsOf(tx)|
    ensures ok ==> var (m1, clean1) := Revert(old(view.View()), OpCreate(tx, height), UndoCreate);
                   var (m2, clean2) := Disconnect(m1, Spends(InputsOf(tx)), SpendUndos(txundo));
                   (clean <==> clean1 && clean2) && (clean ==> view.View() == m2)
  {
    hide Revert, Disconnect;
    clean := RemoveOutputs(view, tx, height);
    if !tx.IsCoinBase() {
      if |txundo| != |tx.vin| {
        ok := false;
        return;
      }
      var fine := RestoreInputs(view, tx.vin, txundo);
      clean := clean && fine;
    } else {
      assert Disconnect(view.View(), Spends([]), SpendUndos([])) == (view.View(), true) by {
        NothingToUndo(view.View());
      }
    }
    ok := true;
  }

  lemma NothingToUndo(m: UtxoMap)
    ensures Disconnect(m, Spends([]), SpendUndos([])) == (m, true)
  {
  }

  /** Undoes the transactions of a block in reverse order.  Fails if the undo records do not fit; otherwise tells
      whether nothing was amiss, and if so the view is as before the block. */
  method DisconnectBlock(view: CoinsViewCache, txs: seq<Tx>, height: int, hashPrev: Hash, vtxundo: seq<seq<TxInUndo>>)
    returns (ok: bool, clean: bool)
    requires view.Valid() && !view.hasModifier && txs != [] && forall i :: 0 <= i < |txs| ==>
             (txs[i].IsCoinBase() <==> i == 0)
    modifies view.Repr
    ensures view.Valid() && !view.hasModifier
    ensures ok <==> Complete(txs, AllUndos(vtxundo))
    ensures ok ==> (clean <==> Undone(old(view.View()), txs, height, AllUndos(vtxundo), |txs|).1)
    ensures ok && clean ==> view.View() == Undone(old(view.View()), txs, height, AllUndos(vtxundo), |txs|).0
    ensures view.BestBlock() ==
            if ok && hashPrev != 0 then hashPrev else if ok then view.BestBelow() else old(view.BestBlock())
  {
    hide Undone, Revert, Disconnect;
    clean := true;
    ghost var undos, m := AllUndos(vtxundo), view.View();
    if |vtxundo| + 1 != |txs| {
      return false, false;
    }
    var i := |txs|;
    while i > 0
      invariant 0 <= i <= |txs|
      invariant view.Valid() && !view.hasModifier && view.BestBlock() == old(view.BestBlock())
      invariant forall k :: i <= k < |txs| ==> |undos[k]| == |InputsOf(txs[k])|
      invariant Complete(txs, undos) ==>
                  if clean then Undone(m, txs, height, undos, |txs|) == Undone(view.View(), txs, height, undos, i)
                  else !Undone(m, txs, height, undos, |txs|).1
    {
      i := i - 1;
      if Complete(txs, undos) {
        LastTxUndone(view.View(), txs, height, undos, i);
      }
      var fine;
      ok, fine := DisconnectTx(view, txs[i], height, if i == 0 then [] else vtxundo[i - 1]);
      if !ok {
        return;
      }
      clean := clean && fine;
    }
    NoneUndone(view.View(), txs, height, undos);
    view.SetBestBlock(hashPrev);
    ok := true;
  }

  lemma NoneUndone(m: UtxoMap, txs: seq<Tx>, height: int, undos: seq<seq<TxInUndo>>)
    requires Complete(txs, undos)
    ensures Undone(m, txs, height, undos, 0) == (m, true)
  {
  }
}
