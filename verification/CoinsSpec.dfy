/** Unspent outputs as values: the operations on one entry, connecting and disconnecting transactions on
    a plain map, and the proof that disconnecting undoes connecting exactly when it should. */
module CoinsSpec {
  import opened Common

  type TxId = nat
  type Script = seq<Byte>

  const OP_RETURN: Byte := 0x6a

  // ---------- Entities ----------

  datatype TxOut = TxOut(value: int, script: Script) {
    predicate IsNull() { value == -1 }

    predicate IsUnspendable() { |script| > 0 && script[0] == OP_RETURN }

    predicate IsEmpty() { value == 0 && script == [] }
  }

  const NULL_OUT: TxOut := TxOut(-1, [])

  datatype OutPoint = OutPoint(hash: TxId, n: nat)

  const NULL_POINT: OutPoint := OutPoint(0, 0xffff_ffff)

  /** A transaction; of an input only the outpoint it claims matters here. */
  datatype Tx = Tx(id: TxId, version: int, vin: seq<OutPoint>, vout: seq<TxOut>) {
    predicate IsCoinBase() { |vin| == 1 && vin[0] == NULL_POINT }

    predicate IsCoinStake() { |vin| > 0 && vin[0] != NULL_POINT && |vout| >= 2 && vout[0].IsEmpty() }
  }

  datatype Coins = Coins(coinBase: bool, coinStake: bool, vout: seq<TxOut>, height: int, version: int) {
    predicate IsPruned() { forall i :: 0 <= i < |vout| ==> vout[i].IsNull() }

    predicate IsAvailable(n: nat) { n < |vout| && !vout[n].IsNull() }
  }

  const NO_COINS: Coins := Coins(false, false, [], 0, 0)

  /** Undo information of one input. */
  datatype TxInUndo = TxInUndo(txout: TxOut, coinBase: bool, coinStake: bool, height: int, version: int)

  /** The unspent outputs by transaction; fully spent entries are absent. */
  type UtxoMap = map<TxId, Coins>

  // ---------- One entry ----------

  /** Without the spent outputs at the end. */
  function Trim(vout: seq<TxOut>): (r: seq<TxOut>)
    ensures |r| <= |vout| && r == vout[..|r|]
    ensures forall i :: |r| <= i < |vout| ==> vout[i].IsNull()
    ensures r != [] ==> !r[|r| - 1].IsNull()
  {
    if |vout| > 0 && vout[|vout| - 1].IsNull() then Trim(vout[..|vout| - 1]) else vout
  }

  function Cleanup(c: Coins): Coins { c.(vout := Trim(c.vout)) }

  function Spendable(vout: seq<TxOut>): (r: seq<TxOut>)
    ensures |r| == |vout|
    ensures forall i :: 0 <= i < |vout| ==> r[i] == if vout[i].IsUnspendable() then NULL_OUT else vout[i]
  {
    seq(|vout|, i requires 0 <= i < |vout| => if vout[i].IsUnspendable() then NULL_OUT else vout[i])
  }

  function ClearUnspendable(c: Coins): Coins { Cleanup(c.(vout := Spendable(c.vout))) }

  function FromTx(tx: Tx, height: int): Coins {
    ClearUnspendable(Coins(tx.IsCoinBase(), tx.IsCoinStake(), tx.vout, height, tx.version))
  }

  /** Entries compare equal when both are fully spent, whatever else they say. */
  predicate SameCoins(a: Coins, b: Coins) {
    (a.IsPruned() && b.IsPruned()) || a == b
  }

  /** The entry after output `n` is spent, and its undo record; metadata is recorded with the last output only. */
  function Spend(c: Coins, n: nat): (Coins, TxInUndo)
    requires c.IsAvailable(n)
  {
    var d := Cleanup(c.(vout := c.vout[n := NULL_OUT]));
    (d, if d.vout == [] then TxInUndo(c.vout[n], c.coinBase, c.coinStake, c.height, c.version)
        else TxInUndo(c.vout[n], false, false, 0, 0))
  }

  /** An entry of a well-kept map: the last output is unspent, and spent outputs are blank. */
  predicate WellKept(c: Coins) {
    && c.vout != [] && !c.vout[|c.vout| - 1].IsNull()
    && forall i :: 0 <= i < |c.vout| && c.vout[i].IsNull() ==> c.vout[i] == NULL_OUT
  }

  /** Every entry is well kept and was created above the genesis block. */
  ghost predicate MapOk(m: UtxoMap) {
    forall t :: t in m ==> WellKept(m[t]) && m[t].height > 0
  }

  lemma PrunedIffTrimmedAway(c: Coins)
    ensures c.IsPruned() <==> Cleanup(c).vout == []
    ensures !c.IsPruned() && (forall i :: 0 <= i < |c.vout| && c.vout[i].IsNull() ==> c.vout[i] == NULL_OUT) ==>
            WellKept(Cleanup(c))
  {
    var r := Trim(c.vout);
    if r != [] {
      assert c.vout[|r| - 1] == r[|r| - 1];
    }
  }

  lemma {:induction false} TrimKept(v: seq<TxOut>)
    requires v == [] || !v[|v| - 1].IsNull()
    ensures Trim(v) == v
  {
  }

  // ---------- The plain map ----------

  /** Storing an entry; fully spent entries vanish. */
  function Put(m: UtxoMap, t: TxId, c: Coins): UtxoMap {
    if c.IsPruned() then m - {t} else m[t := c]
  }

  /** The elementary changes a block makes, in order. */
  datatype Op = OpSpend(out: OutPoint) | OpCreate(tx: Tx, height: int)

  /** What is recorded of a change: an undo record for a spend, nothing for a creation. */
  datatype Undo = UndoSpend(rec: TxInUndo) | UndoCreate

  predicate CanApply(m: UtxoMap, op: Op) {
    match op
    case OpSpend(out) => out.hash in m && m[out.hash].IsAvailable(out.n)
    case OpCreate(tx, height) => tx.id !in m && height > 0 && forall i :: 0 <= i < |tx.vout| ==> tx.vout[i].value >= 0
  }

  function Apply(m: UtxoMap, op: Op): (UtxoMap, Undo)
    requires CanApply(m, op)
  {
    match op
    case OpSpend(out) =>
      var (c, u) := Spend(m[out.hash], out.n);
      (Put(m, out.hash, c), UndoSpend(u))
    case OpCreate(tx, height) => (Put(m, tx.id, FromTx(tx, height)), UndoCreate)
  }

  /** The entry of `t`, or some fully spent one if there is none. */
  function Entry(m: UtxoMap, t: TxId): Coins { if t in m then m[t] else NO_COINS }

  /** `v` with length at least `n + 1`, padded with nulls, and `o` at position `n`. */
  function PutOut(v: seq<TxOut>, n: nat, o: TxOut): (r: seq<TxOut>)
    ensures |r| == if |v| < n + 1 then n + 1 else |v|
    ensures r[n] == o && forall i :: 0 <= i < |r| && i != n ==> r[i] == if i < |v| then v[i] else NULL_OUT
  {
    (if |v| < n + 1 then v + seq(n + 1 - |v|, i => NULL_OUT) else v)[n := o]
  }

  /** Giving an input back: the restored entry, and whether nothing was amiss. The stake flag is not restored. */
  function Restore(c: Coins, n: nat, u: TxInUndo): (Coins, bool) {
    var clean1 := if u.height != 0 then c.IsPruned() else !c.IsPruned();
    var d := if u.height != 0 then Coins(u.coinBase, false, [], u.height, u.version) else c;
    (Cleanup(d.(vout := PutOut(d.vout, n, u.txout))), clean1 && !d.IsAvailable(n))
  }

  /** Whether the outputs of a transaction are still exactly as it created them. */
  predicate Untouched(c: Coins, tx: Tx, height: int) {
    var d := ClearUnspendable(c);
    var b := FromTx(tx, height);
    SameCoins(if b.version < 0 then d.(version := b.version) else d, b)
  }

  /** Undoing one change on a map: the map before, and whether nothing was amiss. */
  function Revert(m: UtxoMap, op: Op, u: Undo): (UtxoMap, bool)
  {
    match op
    case OpSpend(out) =>
      if u.UndoCreate? then (m, false) else
        var (c, clean) := Restore(Entry(m, out.hash), out.n, u.rec);
        (Put(m, out.hash, c), clean)
    case OpCreate(tx, height) => (m - {tx.id}, Untouched(Entry(m, tx.id), tx, height))
  }

  predicate CanConnect(m: UtxoMap, ops: seq<Op>)
    decreases |ops|, 0
  {
    ops == [] || (CanConnect(m, ops[..|ops| - 1]) && CanApply(Connect(m, ops[..|ops| - 1]).0, ops[|ops| - 1]))
  }

  /** The changes one after another, with their undo records. */
  function Connect(m: UtxoMap, ops: seq<Op>): (r: (UtxoMap, seq<Undo>))
    requires CanConnect(m, ops)
    ensures |r.1| == |ops|
    decreases |ops|, 1
  {
    if ops == [] then (m, []) else
      var (m1, us) := Connect(m, ops[..|ops| - 1]);
      var (m2, u) := Apply(m1, ops[|ops| - 1]);
      (m2, us + [u])
  }

  /** The changes undone in reverse order. */
  function Disconnect(m: UtxoMap, ops: seq<Op>, us: seq<Undo>): (UtxoMap, bool)
    requires |us| == |ops|
    decreases |ops|
  {
    if ops == [] then (m, true) else
      var last := |ops| - 1;
      var (m1, clean1) := Revert(m, ops[last], us[last]);
      var (m2, clean2) := Disconnect(m1, ops[..last], us[..last]);
      (m2, clean1 && clean2)
  }

  lemma ConnectSnoc(m: UtxoMap, ops: seq<Op>, op: Op)
    ensures CanConnect(m, ops + [op]) <==> CanConnect(m, ops) && CanApply(Connect(m, ops).0, op)
    ensures CanConnect(m, ops + [op]) ==>
              var (m1, us) := Connect(m, ops);
              var (m2, u) := Apply(m1, op);
              Connect(m, ops + [op]) == (m2, us + [u])
  {
    assert (ops + [op])[..|ops + [op]| - 1] == ops;
    hide CanApply, Apply;
  }

  lemma DisconnectSnoc(m: UtxoMap, ops: seq<Op>, us: seq<Undo>, op: Op, u: Undo)
    requires |us| == |ops|
    ensures var (m1, clean1) := Revert(m, op, u);
            var (m2, clean2) := Disconnect(m1, ops, us);
            Disconnect(m, ops + [op], us + [u]) == (m2, clean1 && clean2)
  {
    assert (ops + [op])[..|ops + [op]| - 1] == ops && (us + [u])[..|ops + [op]| - 1] == us;
    hide Revert;
  }

  // ---------- Disconnecting undoes connecting ----------

  /** Whether a change takes the last unspent output of a coinstake transaction. */
  predicate LosesStake(m: UtxoMap, op: Op)
    requires CanApply(m, op)
  {
    op.OpSpend? && m[op.out.hash].coinStake && Spend(m[op.out.hash], op.out.n).0.vout == []
  }

  /** No change takes the last unspent output of a coinstake transaction. */
  predicate KeepsStakes(m: UtxoMap, ops: seq<Op>)
    requires CanConnect(m, ops)
    decreases |ops|
  {
    ops == [] || (KeepsStakes(m, ops[..|ops| - 1]) && !LosesStake(Connect(m, ops[..|ops| - 1]).0, ops[|ops| - 1]))
  }

  /** Spending keeps an entry well kept, and records enough to put the output back. */
  lemma SpendRecords(c: Coins, n: nat)
    requires WellKept(c) && c.height > 0 && c.IsAvailable(n)
    ensures var (d, u) := Spend(c, n);
            && (d.vout == [] || WellKept(d)) && d == c.(vout := d.vout) && !d.IsAvailable(n)
            && u == (if d.vout == [] then TxInUndo(c.vout[n], c.coinBase, c.coinStake, c.height, c.version)
                     else TxInUndo(c.vout[n], false, false, 0, 0))
            && PutOut(d.vout, n, u.txout) == c.vout
  {
    hide Trim;
    TrimAfter(c.vout, n);
  }

  /** Without the output at `n`, no other unspent output is trimmed away. */
  lemma TrimAfter(v: seq<TxOut>, n: nat)
    requires n < |v| && !v[|v| - 1].IsNull() && forall i :: 0 <= i < |v| && v[i].IsNull() ==> v[i] == NULL_OUT
    ensures var r := Trim(v[n := NULL_OUT]);
            && |r| <= |v| && (r != [] ==> !r[|r| - 1].IsNull())
            && (forall i :: 0 <= i < |r| ==> r[i] == if i == n then NULL_OUT else v[i])
            && (forall i :: |r| <= i < |v| && i != n ==> v[i] == NULL_OUT)
            && (n < |v| - 1 ==> |r| == |v|)
  {
    var w := v[n := NULL_OUT];
    var r := Trim(w);
    assert r == w[..|r|];
    assert forall i :: |r| <= i < |w| ==> w[i].IsNull();
    if n < |v| - 1 {
      assert !w[|v| - 1].IsNull();
    }
  }

  /** Restoring a spent output gives the entry back, with the stake flag it still has: none after the last output. */
  lemma SpendThenRestore(c: Coins, n: nat, flag: bool)
    requires WellKept(c) && c.height > 0 && c.IsAvailable(n)
    ensures var (d, u) := Spend(c, n);
            && (d.vout == [] || WellKept(d)) && (d.vout == [] <==> u.height != 0) && d == c.(vout := d.vout)
            && Restore(d.(coinStake := flag), n, u) == (c.(coinStake := flag && d.vout != []), true)
            && (d.vout == [] ==> Restore(NO_COINS, n, u) == (c.(coinStake := false), true))
  {
    hide Spend, PutOut, Trim;
    SpendRecords(c, n);
    var (d, u) := Spend(c, n);
    WellKeptIsUnspent(d);
    TrimKept(c.vout);
  }

  lemma WellKeptIsUnspent(c: Coins)
    ensures c.vout == [] ==> c.IsPruned()
    ensures WellKept(c) ==> !c.IsPruned()
  {
  }

  lemma CreatedIsWellKept(tx: Tx, height: int)
    requires forall i :: 0 <= i < |tx.vout| ==> tx.vout[i].value >= 0
    ensures var c := FromTx(tx, height);
            && (c.IsPruned() || WellKept(c)) && (c.IsPruned() <==> c.vout == []) && c.height == height
            && ClearUnspendable(c) == c
  {
    var raw := Coins(tx.IsCoinBase(), tx.IsCoinStake(), Spendable(tx.vout), height, tx.version);
    PrunedIffTrimmedAway(raw);
    PrunedIffTrimmedAway(FromTx(tx, height));
    CreatedIsClear(tx, height);
  }

  lemma CreatedIsClear(tx: Tx, height: int)
    ensures ClearUnspendable(FromTx(tx, height)) == FromTx(tx, height)
    ensures Trim(FromTx(tx, height).vout) == FromTx(tx, height).vout
  {
    var c := FromTx(tx, height);
    TrimKept(c.vout);
    assert Spendable(c.vout) == c.vout;
  }

  lemma ApplyKeepsMap(m: UtxoMap, op: Op)
    requires MapOk(m) && CanApply(m, op)
    ensures MapOk(Apply(m, op).0)
  {
    match op
    case OpSpend(out) => SpendThenRestore(m[out.hash], out.n, true);
    case OpCreate(tx, height) => CreatedIsWellKept(tx, height);
  }

  lemma {:induction false} ConnectKeepsMap(m: UtxoMap, ops: seq<Op>)
    requires MapOk(m) && CanConnect(m, ops)
    ensures MapOk(Connect(m, ops).0)
    decreases |ops|
  {
    if ops != [] {
      ConnectKeepsMap(m, ops[..|ops| - 1]);
      ApplyKeepsMap(Connect(m, ops[..|ops| - 1]).0, ops[|ops| - 1]);
    }
  }

  /** `y` is `x` except that at least one coinstake entry has lost its flag. */
  ghost predicate Damaged(x: UtxoMap, y: UtxoMap) {
    && y.Keys == x.Keys
    && (forall t :: t in x ==> y[t] == x[t] || y[t] == x[t].(coinStake := false))
    && y != x
  }

  /** The same of an entry that may have vanished. */
  lemma RestoredEntry(c: Coins, n: nat, there: bool, flag: bool)
    requires WellKept(c) && c.height > 0 && c.IsAvailable(n) && (there <==> Spend(c, n).0.vout != [])
    ensures var (d, u) := Spend(c, n);
            && (there <==> !d.IsPruned()) && !c.(coinStake := there && flag).IsPruned()
            && Restore(if there then d.(coinStake := flag) else NO_COINS, n, u) ==
            (c.(coinStake := there && flag), true)
  {
    hide Spend, Restore;
    SpendThenRestore(c, n, flag);
    WellKeptIsUnspent(Spend(c, n).0);
    WellKeptIsUnspent(c.(coinStake := there && flag));
  }

  lemma AppliedSpend(m: UtxoMap, out: OutPoint)
    requires CanApply(m, OpSpend(out))
    ensures var (d, u) := Spend(m[out.hash], out.n);
            Apply(m, OpSpend(out)) == (if d.IsPruned() then m - {out.hash} else m[out.hash := d], UndoSpend(u))
  {
  }

  /** Reverting a spend on a map whose entry has kept its stake flag or lost it. */
  lemma RevertSpend(m: UtxoMap, out: OutPoint, y: UtxoMap)
    requires MapOk(m) && CanApply(m, OpSpend(out))
    requires var m1 := Apply(m, OpSpend(out)).0;
             && (out.hash in y <==> out.hash in m1)
             && (out.hash in y ==> y[out.hash] == m1[out.hash].(coinStake := y[out.hash].coinStake))
    ensures var (z, clean) := Revert(y, OpSpend(out), Apply(m, OpSpend(out)).1);
            && clean && z == y[out.hash := m[out.hash].(coinStake := out.hash in y && y[out.hash].coinStake)]
    ensures out.hash in y <==> Spend(m[out.hash], out.n).0.vout != []
  {
    hide Spend, Restore, Apply, WellKept, Coins.IsPruned;
    var c := m[out.hash];
    AppliedSpend(m, out);
    SpentEntry(c, out.n);
    RestoredEntry(c, out.n, out.hash in y, out.hash in y && y[out.hash].coinStake);
  }

  lemma SpentEntry(c: Coins, n: nat)
    requires WellKept(c) && c.height > 0 && c.IsAvailable(n)
    ensures Spend(c, n).0.IsPruned() <==> Spend(c, n).0.vout == []
  {
    hide Spend;
    SpendThenRestore(c, n, true);
    WellKeptIsUnspent(Spend(c, n).0);
  }

  lemma CreatedIsUntouched(tx: Tx, height: int)
    requires forall i :: 0 <= i < |tx.vout| ==> tx.vout[i].value >= 0
    ensures Untouched(FromTx(tx, height), tx, height)
    ensures FromTx(tx, height).IsPruned() ==> Untouched(NO_COINS, tx, height)
  {
    CreatedIsWellKept(tx, height);
    hide FromTx;
  }

  lemma RevertCreate(m: UtxoMap, tx: Tx, height: int)
    requires CanApply(m, OpCreate(tx, height))
    ensures Revert(Apply(m, OpCreate(tx, height)).0, OpCreate(tx, height), UndoCreate) == (m, true)
  {
    hide FromTx, Untouched, Coins.IsPruned;
    CreatedIsUntouched(tx, height);
    var m1 := Apply(m, OpCreate(tx, height)).0;
    assert m1 - {tx.id} == m;
  }

  lemma PutThenOverwrite(m: UtxoMap, t: TxId, c: Coins, d: Coins)
    ensures Put(m, t, c)[t := d] == m[t := d]
  {
  }

  lemma RevertSpendUndoes(m: UtxoMap, out: OutPoint)
    requires MapOk(m) && CanApply(m, OpSpend(out))
    ensures var (m1, u) := Apply(m, OpSpend(out));
            var (z, clean) := Revert(m1, OpSpend(out), u);
            clean && if LosesStake(m, OpSpend(out)) then Damaged(m, z) else z == m
  {
    hide Spend, Restore, MapOk, Put, Apply;
    SpendIsPut(m, out);
    var m1 := Apply(m, OpSpend(out)).0;
    var d := Spend(m[out.hash], out.n).0;
    RevertSpend(m, out, m1);
    var flag := out.hash in m1 && m1[out.hash].coinStake;
    PutThenOverwrite(m, out.hash, d, m[out.hash].(coinStake := flag));
    var z := m[out.hash := m[out.hash].(coinStake := flag)];
    assert z[out.hash] == m[out.hash] <==> !LosesStake(m, OpSpend(out));
  }

  lemma SpendIsPut(m: UtxoMap, out: OutPoint)
    requires CanApply(m, OpSpend(out))
    ensures var (d, m1) := (Spend(m[out.hash], out.n).0, Apply(m, OpSpend(out)).0);
            && d.coinStake == m[out.hash].coinStake && m1 == Put(m, out.hash, d)
            && (out.hash in m1 ==> m1[out.hash] == d)
  {
  }

  /** One change and its reversal: exact, unless the last output of a coinstake entry was taken. */
  lemma RevertUndoesApply(m: UtxoMap, op: Op)
    requires MapOk(m) && CanApply(m, op)
    ensures var (m1, u) := Apply(m, op);
            var (z, clean) := Revert(m1, op, u);
            clean && if LosesStake(m, op) then Damaged(m, z) else z == m
  {
    match op
    case OpSpend(out) => RevertSpendUndoes(m, out);
    case OpCreate(tx, height) => RevertCreate(m, tx, height);
  }

  /** Damage elsewhere stays; damage to the entry itself stays in its flag. */
  lemma OverwriteKeepsDamage(m: UtxoMap, t: TxId, m1: UtxoMap, y: UtxoMap)
    requires t in m && (m1 == m - {t} || (t in m1 && m1 == m[t := m1[t]] && m1[t].coinStake == m[t].coinStake))
             && Damaged(m1, y)
    ensures Damaged(m, y[t := m[t].(coinStake := t in y && y[t].coinStake)])
  {
    assert exists d :: d in m1 && y[d] != m1[d];
    var d :| d in m1 && y[d] != m1[d];
    var z := y[t := m[t].(coinStake := t in y && y[t].coinStake)];
    assert z.Keys == m.Keys;
    assert z[d] != m[d];
  }

  lemma RevertSpendKeepsDamage(m: UtxoMap, out: OutPoint, y: UtxoMap)
    requires MapOk(m) && CanApply(m, OpSpend(out)) && Damaged(Apply(m, OpSpend(out)).0, y)
    ensures Damaged(m, Revert(y, OpSpend(out), Apply(m, OpSpend(out)).1).0)
  {
    var (m1, u) := Apply(m, OpSpend(out));
    assert out.hash in y <==> out.hash in m1;
    assert out.hash in m1 ==> m1[out.hash].coinStake == m[out.hash].coinStake;
    RevertSpend(m, out, y);
    OverwriteKeepsDamage(m, out.hash, m1, y);
    hide Spend, Restore, MapOk, Damaged, Revert;
  }

  lemma RevertCreateKeepsDamage(m: UtxoMap, tx: Tx, height: int, y: UtxoMap)
    requires CanApply(m, OpCreate(tx, height)) && Damaged(Apply(m, OpCreate(tx, height)).0, y)
    ensures var (z, clean) := Revert(y, OpCreate(tx, height), UndoCreate);
            !clean || Damaged(m, z)
  {
    hide FromTx, Untouched, Coins.IsPruned;
    var m1 := Apply(m, OpCreate(tx, height)).0;
    assert exists t :: t in m1 && y[t] != m1[t];
    var t :| t in m1 && y[t] != m1[t];
    if t == tx.id {
      DamageIsNoticed(tx, height);
    } else {
      assert (y - {tx.id})[t] != m[t];
    }
  }

  /** Damage does not go away: undoing a change on a damaged map is noticed, or leaves it damaged. */
  lemma RevertKeepsDamage(m: UtxoMap, op: Op, y: UtxoMap)
    requires MapOk(m) && CanApply(m, op) && Damaged(Apply(m, op).0, y)
    ensures var (z, clean) := Revert(y, op, Apply(m, op).1);
            !clean || Damaged(m, z)
  {
    hide Revert, Damaged;
    match op
    case OpSpend(out) => RevertSpendKeepsDamage(m, out, y);
    case OpCreate(tx, height) => RevertCreateKeepsDamage(m, tx, height, y);
  }

  /** A coinstake entry without its flag does not compare equal to what its transaction creates. */
  lemma DamageIsNoticed(tx: Tx, height: int)
    requires forall i :: 0 <= i < |tx.vout| ==> tx.vout[i].value >= 0
    requires !FromTx(tx, height).IsPruned() && FromTx(tx, height).coinStake
    ensures !Untouched(FromTx(tx, height).(coinStake := false), tx, height)
  {
    CreatedIsWellKept(tx, height);
    var c := FromTx(tx, height);
    assert ClearUnspendable(c.(coinStake := false)) == ClearUnspendable(c).(coinStake := false);
  }

  lemma {:induction false} DisconnectKeepsDamage(m: UtxoMap, ops: seq<Op>, y: UtxoMap)
    requires MapOk(m) && CanConnect(m, ops) && Damaged(Connect(m, ops).0, y)
    ensures var (z, clean) := Disconnect(y, ops, Connect(m, ops).1);
            !clean || Damaged(m, z)
    decreases |ops|
  {
    if ops != [] {
      var init, last := ops[..|ops| - 1], ops[|ops| - 1];
      var (m1, us) := Connect(m, init);
      ConnectKeepsMap(m, init);
      RevertKeepsDamage(m1, last, y);
      var (m2, u) := Apply(m1, last);
      assert (us + [u])[..|ops| - 1] == us;
      var (y1, clean) := Revert(y, last, u);
      if clean {
        DisconnectKeepsDamage(m, init, y1);
      }
    }
  }

  /** Disconnecting what was connected is clean and gives back the same map exactly when no change took
      the last unspent output of a coinstake transaction. */
  lemma {:induction false} DisconnectUndoesConnectIff(m: UtxoMap, ops: seq<Op>)
    requires MapOk(m) && CanConnect(m, ops)
    ensures var (m1, us) := Connect(m, ops);
            Disconnect(m1, ops, us) == (m, true) <==> KeepsStakes(m, ops)
    decreases |ops|
  {
    if ops != [] {
      var init, last := ops[..|ops| - 1], ops[|ops| - 1];
      var (m1, us) := Connect(m, init);
      ConnectKeepsMap(m, init);
      RevertUndoesApply(m1, last);
      var (m2, u) := Apply(m1, last);
      assert (us + [u])[..|ops| - 1] == us;
      if LosesStake(m1, last) {
        DisconnectKeepsDamage(m, init, Revert(m2, last, u).0);
      } else {
        DisconnectUndoesConnectIff(m, init);
      }
    }
  }

  const BLANK: TxOut := TxOut(0, [])
  const PAID: TxOut := TxOut(5, [1])

  /** A coinstake entry, given its outputs and its stake flag. */
  function Stake(vout: seq<TxOut>, flag: bool): Coins { Coins(false, flag, vout, 7, 1) }

  lemma StakeIsSpent()
    ensures Spend(Stake([BLANK, PAID], true), 1) == (Stake([BLANK], true), TxInUndo(PAID, false, false, 0, 0))
    ensures Spend(Stake([BLANK], true), 0) == (Stake([], true), TxInUndo(BLANK, false, true, 7, 1))
  {
    assert [BLANK, PAID][1 := NULL_OUT] == [BLANK, NULL_OUT] && [BLANK, NULL_OUT][..1] == [BLANK];
    assert Trim([BLANK, NULL_OUT]) == Trim([BLANK]) == [BLANK];
    assert [BLANK][0 := NULL_OUT] == [NULL_OUT] && [NULL_OUT][..0] == [];
  }

  const STAKE_OPS: seq<Op> := [OpSpend(OutPoint(3, 1)), OpSpend(OutPoint(3, 0))]
  const STAKE_UNDO: seq<Undo> :=
    [UndoSpend(TxInUndo(PAID, false, false, 0, 0)), UndoSpend(TxInUndo(BLANK, false, true, 7, 1))]

  lemma StakeIsConnected()
    ensures var m: UtxoMap := map[3 := Stake([BLANK, PAID], true)];
            && CanConnect(m, STAKE_OPS) && !KeepsStakes(m, STAKE_OPS) && Connect(m, STAKE_OPS) == (map[], STAKE_UNDO)
  {
    hide Spend;
    var m: UtxoMap := map[3 := Stake([BLANK, PAID], true)];
    var m1: UtxoMap := map[3 := Stake([BLANK], true)];
    var (first, second) := (STAKE_OPS[0], STAKE_OPS[1]);
    StakeIsSpent();
    assert m[3].IsAvailable(1) && m1[3].IsAvailable(0) && !m1[3].vout[0].IsNull() && Stake([], true).IsPruned();
    assert m[3 := m1[3]] == m1 && m1 - {3} == map[];
    assert Apply(m, first) == (m1, STAKE_UNDO[0]);
    assert Apply(m1, second) == (map[], STAKE_UNDO[1]);
    ConnectSnoc(m, [], first);
    ConnectSnoc(m, [first], second);
    assert [first] == [] + [first] && STAKE_OPS == [first] + [second] && STAKE_OPS[..1] == [first];
    assert [] + [STAKE_UNDO[0]] == [STAKE_UNDO[0]];
    assert STAKE_UNDO == [STAKE_UNDO[0]] + [STAKE_UNDO[1]];
  }

  lemma StakeIsNotRestored()
    ensures Disconnect(map[], STAKE_OPS, STAKE_UNDO) == (map[3 := Stake([BLANK, PAID], false)], true)
  {
    hide Spend, Restore;
    var m1: UtxoMap := map[3 := Stake([BLANK], false)];
    var m: UtxoMap := map[3 := Stake([BLANK, PAID], false)];
    StakeIsSpent();
    SpendThenRestore(Stake([BLANK, PAID], true), 1, false);
    SpendThenRestore(Stake([BLANK], true), 0, false);
    assert !m1[3].vout[0].IsNull() && !m[3].vout[0].IsNull() && m1[3 := m[3]] == m;
    assert Revert(map[], STAKE_OPS[1], STAKE_UNDO[1]) == (m1, true);
    assert Revert(m1, STAKE_OPS[0], STAKE_UNDO[0]) == (m, true);
    DisconnectSnoc(map[], STAKE_OPS[..1], STAKE_UNDO[..1], STAKE_OPS[1], STAKE_UNDO[1]);
    DisconnectSnoc(m1, [], [], STAKE_OPS[0], STAKE_UNDO[0]);
    assert STAKE_OPS[..1] + [STAKE_OPS[1]] == STAKE_OPS && STAKE_UNDO[..1] + [STAKE_UNDO[1]] == STAKE_UNDO;
    assert [] + [STAKE_OPS[0]] == STAKE_OPS[..1] && [] + [STAKE_UNDO[0]] == STAKE_UNDO[..1];
  }

  /** An input for which the flag is lost: both outputs of a coinstake transaction are spent, which includes the
      first one, without value or script, that marks it as such.  Nothing is found amiss. */
  lemma StakeIsLost()
    ensures var m: UtxoMap := map[3 := Stake([BLANK, PAID], true)];
            && MapOk(m) && CanConnect(m, STAKE_OPS) && !KeepsStakes(m, STAKE_OPS)
            && var (z, us) := Connect(m, STAKE_OPS);
               Disconnect(z, STAKE_OPS, us) == (map[3 := Stake([BLANK, PAID], false)], true)
  {
    StakeIsConnected();
    StakeIsNotRestored();
    hide CanConnect, Connect, Disconnect, KeepsStakes;
  }
}
