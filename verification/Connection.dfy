/** The elementary changes that connecting a transaction makes, and when a sequence of changes, a transaction or a
    block can be connected. */
module Connection {
  import opened CoinsSpec

  // ---------- The changes a block makes ----------

  function Spends(vin: seq<OutPoint>): (r: seq<Op>)
    ensures |r| == |vin|
  {
    seq(|vin|, k requires 0 <= k < |vin| => OpSpend(vin[k]))
  }

  function InputsOf(tx: Tx): seq<OutPoint> { if tx.IsCoinBase() then [] else tx.vin }

  function TxOps(tx: Tx, height: int): seq<Op> { Spends(InputsOf(tx)) + [OpCreate(tx, height)] }

  function BlockOps(txs: seq<Tx>, height: int): seq<Op> {
    if txs == [] then [] else BlockOps(txs[..|txs| - 1], height) + TxOps(txs[|txs| - 1], height)
  }

  function SpendUndos(txundo: seq<TxInUndo>): (r: seq<Undo>)
    ensures |r| == |txundo|
  {
    seq(|txundo|, k requires 0 <= k < |txundo| => UndoSpend(txundo[k]))
  }

  function TxUndos(txundo: seq<TxInUndo>): seq<Undo> { SpendUndos(txundo) + [UndoCreate] }

  /** The undo records of all changes, from the per-transaction records; the coinbase has none. */
  function BlockUndos(txundos: seq<seq<TxInUndo>>): seq<Undo> {
    if txundos == [] then [] else BlockUndos(txundos[..|txundos| - 1]) + TxUndos(txundos[|txundos| - 1])
  }

  lemma {:induction false} ConnectConcat(m: UtxoMap, a: seq<Op>, b: seq<Op>)
    ensures CanConnect(m, a + b) <==> CanConnect(m, a) && CanConnect(Connect(m, a).0, b)
    ensures CanConnect(m, a + b) ==>
              Connect(m, a + b) == (Connect(Connect(m, a).0, b).0, Connect(m, a).1 + Connect(Connect(m, a).0, b).1)
    decreases |b|
  {
    if b == [] {
      assert a + b == a && (CanConnect(m, a) ==> Connect(m, a).1 + [] == Connect(m, a).1);
    } else {
      var init, op := b[..|b| - 1], b[|b| - 1];
      assert a + b == (a + init) + [op] && b == init + [op];
      ConnectConcat(m, a, init);
      ConnectSnoc(m, a + init, op);
      hide *;
      if CanConnect(m, a) {
        var m1 := Connect(m, a).0;
        ConnectSnoc(m1, init, op);
        if CanConnect(m, a + b) {
          assert Connect(m, a + b).1 == Connect(m, a).1 + Connect(m1, b).1;
        }
      }
    }
  }

  lemma {:induction false} DisconnectConcat(m: UtxoMap, a: seq<Op>, b: seq<Op>, ua: seq<Undo>, ub: seq<Undo>)
    requires |ua| == |a| && |ub| == |b|
    ensures var (m1, clean1) := Disconnect(m, b, ub);
            var (m2, clean2) := Disconnect(m1, a, ua);
            Disconnect(m, a + b, ua + ub) == (m2, clean1 && clean2)
    decreases |b|
  {
    if b == [] {
      assert a + b == a && ua + ub == ua;
    } else {
      var init, op, us, u := b[..|b| - 1], b[|b| - 1], ub[..|b| - 1], ub[|b| - 1];
      assert a + b == (a + init) + [op] && b == init + [op];
      assert ua + ub == (ua + us) + [u] && ub == us + [u];
      var m1 := Revert(m, op, u).0;
      DisconnectConcat(m1, a, init, ua, us);
      DisconnectSnoc(m, a + init, ua + us, op, u);
      DisconnectSnoc(m, init, us, op, u);
      hide *;
    }
  }

  // ---------- When a transaction can be connected ----------

  predicate InputsThere(m: UtxoMap, vin: seq<OutPoint>) {
    forall k :: 0 <= k < |vin| ==> CanApply(m, OpSpend(vin[k]))
  }

  predicate Distinct(vin: seq<OutPoint>) {
    forall k :: 0 <= k < |vin| ==> vin[k] !in vin[..k]
  }

  /** Spending one output leaves every other one as it was. */
  lemma SpendLeavesOthers(m: UtxoMap, out: OutPoint, o: OutPoint)
    requires CanApply(m, OpSpend(out))
    ensures var m1 := Apply(m, OpSpend(out)).0;
            && (CanApply(m1, OpSpend(o)) <==> CanApply(m, OpSpend(o)) && o != out)
            && (CanApply(m1, OpSpend(o)) ==> m1[o.hash].vout[o.n] == m[o.hash].vout[o.n])
            && m1.Keys <= m.Keys
  {
    var d := Spend(m[out.hash], out.n).0;
    var w := m[out.hash].vout[out.n := NULL_OUT];
    assert d.vout == w[..|d.vout|];
    assert o.n < |d.vout| ==> d.vout[o.n] == w[o.n];
    assert |d.vout| <= o.n < |w| ==> w[o.n].IsNull();
    hide Spend;
  }

  /** Spending several. */
  lemma {:induction false} SpendsLeaveOthers(m: UtxoMap, vin: seq<OutPoint>, o: OutPoint)
    requires CanConnect(m, Spends(vin))
    ensures var m1 := Connect(m, Spends(vin)).0;
            && (CanApply(m1, OpSpend(o)) <==> CanApply(m, OpSpend(o)) && o !in vin)
            && (CanApply(m1, OpSpend(o)) ==> m1[o.hash].vout[o.n] == m[o.hash].vout[o.n])
            && m1.Keys <= m.Keys
    decreases |vin|
  {
    if vin != [] {
      var init, out := vin[..|vin| - 1], vin[|vin| - 1];
      assert vin == init + [out];
      assert Spends(vin) == Spends(init) + [OpSpend(out)];
      ConnectSnoc(m, Spends(init), OpSpend(out));
      SpendsLeaveOthers(m, init, o);
      SpendLeavesOthers(Connect(m, Spends(init)).0, out, o);
      hide CanConnect, Connect, Apply, CanApply;
    }
  }

  /** Inputs that are all there can be spent one after another, if they are all different. */
  lemma {:induction false} HaveInputsIff(m: UtxoMap, vin: seq<OutPoint>)
    requires Distinct(vin)
    ensures CanConnect(m, Spends(vin)) <==> InputsThere(m, vin)
    decreases |vin|
  {
    if vin != [] {
      var init, out := vin[..|vin| - 1], vin[|vin| - 1];
      assert vin == init + [out];
      assert Spends(vin) == Spends(init) + [OpSpend(out)];
      ConnectSnoc(m, Spends(init), OpSpend(out));
      assert forall k :: 0 <= k < |init| ==> init[..k] == vin[..k];
      HaveInputsIff(m, init);
      if InputsThere(m, init) {
        SpendsLeaveOthers(m, init, out);
      }
      hide CanConnect, Connect, Apply, CanApply;
    }
  }

  /** No input twice, and no negative values.  (Compared with `true` so that the verifier passes it around as one
      fact.) */
  predicate TxShape(tx: Tx) {
    true == (Distinct(InputsOf(tx)) && forall i :: 0 <= i < |tx.vout| ==> tx.vout[i].value >= 0)
  }

  /** A well-formed transaction not in the map can be connected exactly if its inputs are there. */
  lemma TxConnects(m: UtxoMap, tx: Tx, height: int)
    requires TxShape(tx) && tx.id !in m && height > 0
    ensures CanConnect(m, TxOps(tx, height)) <==> InputsThere(m, InputsOf(tx))
    ensures CanConnect(m, TxOps(tx, height)) ==> Connect(m, TxOps(tx, height)).0.Keys <= m.Keys + {tx.id}
  {
    var spends := Spends(InputsOf(tx));
    HaveInputsIff(m, InputsOf(tx));
    ConnectSnoc(m, spends, OpCreate(tx, height));
    if InputsThere(m, InputsOf(tx)) {
      SpendsLeaveOthers(m, InputsOf(tx), OutPoint(tx.id, 0));
      var m1 := Connect(m, spends).0;
      CreateAddsKey(m1, tx, height);
    }
    hide CanConnect, Connect, Apply;
  }

  lemma CreateAddsKey(m: UtxoMap, tx: Tx, height: int)
    requires CanApply(m, OpCreate(tx, height))
    ensures Apply(m, OpCreate(tx, height)).0.Keys <= m.Keys + {tx.id}
  {
  }

  function Ids(txs: seq<Tx>): set<TxId> {
    if txs == [] then {} else Ids(txs[..|txs| - 1]) + {txs[|txs| - 1].id}
  }

  /** Well-formed transactions, all different and new to the map. */
  predicate AllNew(m: UtxoMap, txs: seq<Tx>) {
    txs == [] ||
    var init, last := txs[..|txs| - 1], txs[|txs| - 1];
    AllNew(m, init) && TxShape(last) && last.id !in m && last.id !in Ids(init)
  }

  /** A block as its own checks leave it, whose transactions are new to the map. */
  predicate BlockShape(m: UtxoMap, txs: seq<Tx>) {
    txs != [] && txs[0].IsCoinBase() && AllNew(m, txs)
  }

  lemma {:induction false} AllNewAt(m: UtxoMap, txs: seq<Tx>, i: nat)
    requires AllNew(m, txs) && i < |txs|
    ensures AllNew(m, txs[..i]) && TxShape(txs[i]) && txs[i].id !in m && txs[i].id !in Ids(txs[..i])
    decreases |txs|
  {
    if i < |txs| - 1 {
      AllNewAt(m, txs[..|txs| - 1], i);
      assert txs[..|txs| - 1][..i] == txs[..i];
    }
  }

  lemma {:induction false} BlockAddsItsIds(m: UtxoMap, txs: seq<Tx>, height: int)
    requires CanConnect(m, BlockOps(txs, height)) && height > 0 && AllNew(m, txs)
    ensures Connect(m, BlockOps(txs, height)).0.Keys <= m.Keys + Ids(txs)
    decreases |txs|
  {
    if txs != [] {
      var init, tx := txs[..|txs| - 1], txs[|txs| - 1];
      ConnectConcat(m, BlockOps(init, height), TxOps(tx, height));
      hide CanConnect, Connect, TxOps, TxShape;
      BlockAddsItsIds(m, init, height);
      var m1 := Connect(m, BlockOps(init, height)).0;
      TxConnects(m1, tx, height);
    }
  }

  /** The next transaction of a block can be connected exactly if its inputs are there by then. */
  lemma NextTxConnects(m: UtxoMap, txs: seq<Tx>, height: int, i: nat)
    requires BlockShape(m, txs) && i < |txs| && height > 0 && CanConnect(m, BlockOps(txs[..i], height))
    ensures var m1 := Connect(m, BlockOps(txs[..i], height)).0;
            && txs[i].id !in m1
            && (CanConnect(m1, TxOps(txs[i], height)) <==> InputsThere(m1, InputsOf(txs[i])))
            && (CanConnect(m, BlockOps(txs[..i + 1], height)) <==> InputsThere(m1, InputsOf(txs[i])))
            && (CanConnect(m, BlockOps(txs[..i + 1], height)) ==>
                  var (m2, us) := Connect(m1, TxOps(txs[i], height));
                  Connect(m, BlockOps(txs[..i + 1], height)) == (m2, Connect(m, BlockOps(txs[..i], height)).1 + us))
  {
    assert txs[..i + 1][..i] == txs[..i];
    AllNewAt(m, txs, i);
    BlockAddsItsIds(m, txs[..i], height);
    ConnectConcat(m, BlockOps(txs[..i], height), TxOps(txs[i], height));
    var m1 := Connect(m, BlockOps(txs[..i], height)).0;
    hide CanConnect, Connect, TxOps, InputsThere;
    TxConnects(m1, txs[i], height);
  }

  lemma {:induction false} PrefixConnects(m: UtxoMap, txs: seq<Tx>, height: int, i: nat)
    requires i <= |txs| && CanConnect(m, BlockOps(txs, height))
    ensures CanConnect(m, BlockOps(txs[..i], height))
    decreases |txs|
  {
    if i < |txs| {
      ConnectConcat(m, BlockOps(txs[..|txs| - 1], height), TxOps(txs[|txs| - 1], height));
      PrefixConnects(m, txs[..|txs| - 1], height, i);
      assert txs[..|txs| - 1][..i] == txs[..i];
    } else {
      assert txs[..i] == txs;
    }
  }

  lemma SpendsSplit(vin: seq<OutPoint>, i: nat)
    requires i <= |vin|
    ensures Spends(vin) == Spends(vin[..i]) + Spends(vin[i..])
  {
  }

  lemma NextSpend(m: UtxoMap, vin: seq<OutPoint>, i: nat)
    requires i < |vin| && CanConnect(m, Spends(vin))
    ensures CanConnect(m, Spends(vin[..i])) && CanConnect(m, Spends(vin[..i + 1]))
    ensures var (m1, us) := Connect(m, Spends(vin[..i]));
            && CanApply(m1, OpSpend(vin[i]))
            && var (m2, u) := Apply(m1, OpSpend(vin[i]));
               Connect(m, Spends(vin[..i + 1])) == (m2, us + [u])
  {
    hide CanConnect, Connect, Apply, CanApply;
    SpendsSplit(vin, i + 1);
    ConnectConcat(m, Spends(vin[..i + 1]), Spends(vin[i + 1..]));
    assert Spends(vin[..i + 1]) == Spends(vin[..i]) + [OpSpend(vin[i])];
    ConnectSnoc(m, Spends(vin[..i]), OpSpend(vin[i]));
  }
}
