/** The money in a map of unspent outputs, and what connecting transactions does to it. */
module Supply {
  import opened CoinsSpec
  import opened Connection

  // ---------- Values ----------

  /** The value of the outputs not yet spent. */
  function Value(vout: seq<TxOut>): int {
    if vout == [] then 0
    else Value(vout[..|vout| - 1]) + if vout[|vout| - 1].IsNull() then 0 else vout[|vout| - 1].value
  }

  function ValueOut(vout: seq<TxOut>): int {
    if vout == [] then 0 else ValueOut(vout[..|vout| - 1]) + vout[|vout| - 1].value
  }

  /** The value of provably unspendable outputs, which never enter the map. */
  function Unspendable(vout: seq<TxOut>): int {
    if vout == [] then 0
    else Unspendable(vout[..|vout| - 1]) + if vout[|vout| - 1].IsUnspendable() then vout[|vout| - 1].value else 0
  }

  ghost function Total(m: UtxoMap): int {
    if m == map[] then 0 else
      var t :| t in m;
      Value(m[t].vout) + Total(m - {t})
  }

  function OutputOf(m: UtxoMap, o: OutPoint): TxOut
    requires CanApply(m, OpSpend(o))
  {
    m[o.hash].vout[o.n]
  }

  function ValueIn(m: UtxoMap, vin: seq<OutPoint>): int
    requires InputsThere(m, vin)
  {
    if vin == [] then 0 else ValueIn(m, vin[..|vin| - 1]) + OutputOf(m, vin[|vin| - 1]).value
  }

  /** What the changes destroy for good. */
  function Burned(ops: seq<Op>): int {
    if ops == [] then 0 else
      var op := ops[|ops| - 1];
      Burned(ops[..|ops| - 1]) + if op.OpCreate? then Unspendable(op.tx.vout) else 0
  }

  /** What the changes add to the money supply. */
  function Minted(m: UtxoMap, ops: seq<Op>): int
    requires CanConnect(m, ops)
    decreases |ops|
  {
    if ops == [] then 0 else
      var op := ops[|ops| - 1];
      Minted(m, ops[..|ops| - 1]) +
      match op
      case OpSpend(o) => -OutputOf(Connect(m, ops[..|ops| - 1]).0, o).value
      case OpCreate(tx, _) => ValueOut(tx.vout)
  }

  // ---------- Sums ----------

  /** It does not matter in which order a map is summed up. */
  lemma {:induction false} TotalWithout(m: UtxoMap, t: TxId)
    requires t in m
    ensures Total(m) == Value(m[t].vout) + Total(m - {t})
    decreases |m|
  {
    var p :| p in m && Total(m) == Value(m[p].vout) + Total(m - {p});
    if p != t {
      TotalWithout(m - {p}, t);
      TotalWithout(m - {t}, p);
      assert m - {p} - {t} == m - {t} - {p};
    }
  }

  lemma TotalPut(m: UtxoMap, t: TxId, c: Coins)
    ensures Total(Put(m, t, c)) == Total(m) - Value(Entry(m, t).vout) + Value(c.vout)
  {
    var rest := m - {t};
    if t in m {
      TotalWithout(m, t);
    } else {
      assert rest == m;
    }
    if c.IsPruned() {
      NullsAreWorthNothing(c.vout, 0);
      assert c.vout[..0] == [];
    } else {
      TotalWithout(m[t := c], t);
      assert m[t := c] - {t} == rest;
    }
  }

  lemma {:induction false} NullsAreWorthNothing(v: seq<TxOut>, k: nat)
    requires k <= |v| && forall i :: k <= i < |v| ==> v[i].IsNull()
    ensures Value(v) == Value(v[..k])
  {
    if k < |v| {
      NullsAreWorthNothing(v[..|v| - 1], k);
      assert v[..|v| - 1][..k] == v[..k];
    } else {
      assert v[..k] == v;
    }
  }

  lemma {:induction false} ValueNulled(v: seq<TxOut>, n: nat)
    requires n < |v| && !v[n].IsNull()
    ensures Value(v[n := NULL_OUT]) == Value(v) - v[n].value
  {
    var w := v[n := NULL_OUT];
    if n < |v| - 1 {
      ValueNulled(v[..|v| - 1], n);
      assert w[..|v| - 1] == v[..|v| - 1][n := NULL_OUT];
    } else {
      assert w[..|v| - 1] == v[..|v| - 1];
    }
  }

  lemma {:induction false} ValueSpendable(v: seq<TxOut>)
    requires forall i :: 0 <= i < |v| ==> v[i].value >= 0
    ensures Value(Spendable(v)) + Unspendable(v) == ValueOut(v)
  {
    if v != [] {
      ValueSpendable(v[..|v| - 1]);
      assert Spendable(v)[..|v| - 1] == Spendable(v[..|v| - 1]);
    }
  }

  // ---------- One change ----------

  lemma SpendTakesValue(m: UtxoMap, o: OutPoint)
    requires CanApply(m, OpSpend(o))
    ensures Total(Apply(m, OpSpend(o)).0) == Total(m) - OutputOf(m, o).value
  {
    var c := m[o.hash];
    var d := Spend(c, o.n).0;
    ValueNulled(c.vout, o.n);
    NullsAreWorthNothing(c.vout[o.n := NULL_OUT], |d.vout|);
    TotalPut(m, o.hash, d);
  }

  lemma CreateAddsValue(m: UtxoMap, tx: Tx, height: int)
    requires CanApply(m, OpCreate(tx, height))
    ensures Total(Apply(m, OpCreate(tx, height)).0) == Total(m) + ValueOut(tx.vout) - Unspendable(tx.vout)
  {
    var c := FromTx(tx, height);
    ValueSpendable(tx.vout);
    NullsAreWorthNothing(Spendable(tx.vout), |c.vout|);
    TotalPut(m, tx.id, c);
  }

  /** Over any changes, what is unspent and what was burned together grow by exactly what was minted. */
  lemma {:induction false} ConnectConservesValue(m: UtxoMap, ops: seq<Op>)
    requires CanConnect(m, ops)
    ensures Total(Connect(m, ops).0) + Burned(ops) == Total(m) + Minted(m, ops)
    decreases |ops|
  {
    if ops != [] {
      var init, op := ops[..|ops| - 1], ops[|ops| - 1];
      ConnectConservesValue(m, init);
      var m1 := Connect(m, init).0;
      hide Total, Apply;
      match op
      case OpSpend(o) => SpendTakesValue(m1, o);
      case OpCreate(tx, height) => CreateAddsValue(m1, tx, height);
    }
  }

  // ---------- What a transaction mints ----------

  lemma {:induction false} MintedConcat(m: UtxoMap, a: seq<Op>, b: seq<Op>)
    requires CanConnect(m, a + b) && CanConnect(m, a) && CanConnect(Connect(m, a).0, b)
    ensures Minted(m, a + b) == Minted(m, a) + Minted(Connect(m, a).0, b)
    decreases |b|
  {
    if b == [] {
      assert a + b == a;
    } else {
      var init := b[..|b| - 1];
      assert (a + b)[..|a + b| - 1] == a + init && (a + b)[|a + b| - 1] == b[|b| - 1];
      ConnectConcat(m, a, init);
      MintedConcat(m, a, init);
      hide Connect;
    }
  }

  lemma {:induction false} SpendsMint(m: UtxoMap, vin: seq<OutPoint>)
    requires CanConnect(m, Spends(vin)) && InputsThere(m, vin)
    ensures Minted(m, Spends(vin)) == -ValueIn(m, vin)
    decreases |vin|
  {
    if vin != [] {
      var init, out := vin[..|vin| - 1], vin[|vin| - 1];
      assert Spends(vin)[..|vin| - 1] == Spends(init);
      SpendsMint(m, init);
      SpendsLeaveOthers(m, init, out);
      hide Connect;
    }
  }

  /** A transaction mints what it puts out beyond its inputs, as they were before it. */
  lemma TxMints(m: UtxoMap, tx: Tx, height: int)
    requires CanConnect(m, TxOps(tx, height)) && InputsThere(m, InputsOf(tx))
    ensures Minted(m, TxOps(tx, height)) == ValueOut(tx.vout) - ValueIn(m, InputsOf(tx))
  {
    var spends := Spends(InputsOf(tx));
    assert TxOps(tx, height)[..|spends|] == spends;
    ConnectSnoc(m, spends, OpCreate(tx, height));
    SpendsMint(m, InputsOf(tx));
  }

  /** Making the changes leads from `m` to `m1`, with these undo records, and mints so much.  (Compared with
      `true` so that the verifier passes it around as one fact.) */
  ghost predicate Reached(m: UtxoMap, ops: seq<Op>, m1: UtxoMap, us: seq<Undo>, minted: int) {
    true == (CanConnect(m, ops) && Connect(m, ops) == (m1, us) && Minted(m, ops) == minted)
  }

  lemma ReachMore(m: UtxoMap, a: seq<Op>, m1: UtxoMap, ua: seq<Undo>, x: int, b: seq<Op>, m2: UtxoMap, ub: seq<Undo>,
                  y: int)
    requires Reached(m, a, m1, ua, x) && Reached(m1, b, m2, ub, y)
    ensures Reached(m, a + b, m2, ua + ub, x + y)
  {
    ConnectConcat(m, a, b);
    MintedConcat(m, a, b);
  }
}
