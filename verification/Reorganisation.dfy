/** What connecting and disconnecting whole blocks, and whole chains of them, amounts to. */
module Reorganisation {
  import opened CoinsSpec
  import opened Connection
  import opened Supply
  import opened BlockConnection

  datatype Block = Block(txs: seq<Tx>, height: int)

  function ChainOps(blocks: seq<Block>): seq<Op> {
    if blocks == [] then [] else
      var last := blocks[|blocks| - 1];
      ChainOps(blocks[..|blocks| - 1]) + BlockOps(last.txs, last.height)
  }

  function ChainUndos(undos: seq<seq<seq<TxInUndo>>>): seq<Undo> {
    if undos == [] then [] else ChainUndos(undos[..|undos| - 1]) + BlockUndos(undos[|undos| - 1])
  }

  predicate AllComplete(blocks: seq<Block>, undos: seq<seq<seq<TxInUndo>>>) {
    |undos| == |blocks| && forall k :: 0 <= k < |blocks| ==> Complete(blocks[k].txs, undos[k])
  }

  /** Disconnecting blocks one by one from the tip. */
  ghost function UndoneChain(m: UtxoMap, blocks: seq<Block>, undos: seq<seq<seq<TxInUndo>>>): (UtxoMap, bool)
    requires AllComplete(blocks, undos)
    decreases |blocks|
  {
    if blocks == [] then (m, true) else
      var last := |blocks| - 1;
      var (m1, clean1) := Undone(m, blocks[last].txs, blocks[last].height, undos[last], |blocks[last].txs|);
      var (m2, clean2) := UndoneChain(m1, blocks[..last], undos[..last]);
      (m2, clean2 && clean1)
  }

  lemma {:induction false} UndoneIsDisconnected(m: UtxoMap, b: Block, undos: seq<seq<TxInUndo>>)
    requires Complete(b.txs, undos)
    ensures |BlockOps(b.txs, b.height)| == |BlockUndos(undos)|
    ensures Undone(m, b.txs, b.height, undos, |b.txs|) == Disconnect(m, BlockOps(b.txs, b.height), BlockUndos(undos))
  {
    CompleteLengths(b.txs, b.height, undos, |b.txs|);
    assert b.txs[..|b.txs|] == b.txs && undos[..|b.txs|] == undos;
  }

  lemma {:induction false} UndoneChainIsDisconnected(m: UtxoMap, blocks: seq<Block>, undos: seq<seq<seq<TxInUndo>>>)
    requires AllComplete(blocks, undos)
    ensures |ChainOps(blocks)| == |ChainUndos(undos)|
    ensures UndoneChain(m, blocks, undos) == Disconnect(m, ChainOps(blocks), ChainUndos(undos))
    decreases |blocks|
  {
    if blocks != [] {
      var last := |blocks| - 1;
      var b := blocks[last];
      UndoneIsDisconnected(m, b, undos[last]);
      hide BlockOps, BlockUndos, Disconnect, Complete;
      var m1 := Undone(m, b.txs, b.height, undos[last], |b.txs|).0;
      UndoneChainIsDisconnected(m1, blocks[..last], undos[..last]);
      DisconnectConcat(m, ChainOps(blocks[..last]), BlockOps(b.txs, b.height), ChainUndos(undos[..last]),
                       BlockUndos(undos[last]));
    }
  }

  /** Disconnecting a chain of connected blocks is clean and gives back the unspent outputs from before them,
      exactly when no block took the last unspent output of a coinstake transaction. */
  lemma ChainRoundTripIff(m: UtxoMap, blocks: seq<Block>, m1: UtxoMap, undos: seq<seq<seq<TxInUndo>>>, minted: int)
    requires MapOk(m) && AllComplete(blocks, undos) && Reached(m, ChainOps(blocks), m1, ChainUndos(undos), minted)
    ensures UndoneChain(m1, blocks, undos) == (m, true) <==> KeepsStakes(m, ChainOps(blocks))
  {
    UndoneChainIsDisconnected(m1, blocks, undos);
    DisconnectUndoesConnectIff(m, ChainOps(blocks));
  }

  /** The same for a single block. */
  lemma BlockRoundTripIff(m: UtxoMap, b: Block, m1: UtxoMap, undos: seq<seq<TxInUndo>>, minted: int)
    requires MapOk(m) && Complete(b.txs, undos) && Reached(m, BlockOps(b.txs, b.height), m1, BlockUndos(undos), minted)
    ensures Undone(m1, b.txs, b.height, undos, |b.txs|) == (m, true) <==> KeepsStakes(m, BlockOps(b.txs, b.height))
  {
    UndoneIsDisconnected(m1, b, undos);
    DisconnectUndoesConnectIff(m, BlockOps(b.txs, b.height));
  }

  /** A further block on a chain. */
  lemma ChainGrows(m: UtxoMap, blocks: seq<Block>, m1: UtxoMap, undos: seq<seq<seq<TxInUndo>>>, x: int, b: Block,
                   m2: UtxoMap, u: seq<seq<TxInUndo>>, y: int)
    requires Reached(m, ChainOps(blocks), m1, ChainUndos(undos), x)
             && Reached(m1, BlockOps(b.txs, b.height), m2, BlockUndos(u), y)
    ensures Reached(m, ChainOps(blocks + [b]), m2, ChainUndos(undos + [u]), x + y)
  {
    assert (blocks + [b])[..|blocks|] == blocks && (undos + [u])[..|undos|] == undos;
    ReachMore(m, ChainOps(blocks), m1, ChainUndos(undos), x, BlockOps(b.txs, b.height), m2, BlockUndos(u), y);
  }

  /** From nothing, the money supply is what is unspent and what was burned. */
  lemma SupplyIsUnspentOrBurned(blocks: seq<Block>, m1: UtxoMap, undos: seq<seq<seq<TxInUndo>>>, supply: int)
    requires Reached(map[], ChainOps(blocks), m1, ChainUndos(undos), supply)
    ensures supply == Total(m1) + Burned(ChainOps(blocks))
  {
    ConnectConservesValue(map[], ChainOps(blocks));
  }
}
