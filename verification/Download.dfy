/** Which blocks to ask a peer for next. */
module Download {
  import opened Common
  import opened BlockIndexes
  import opened ActiveChain

  type NodeId = int

  const BLOCK_DOWNLOAD_WINDOW: nat := 1024

  class NodeState {
    var pindexBestKnownBlock: BlockIndex?
    var pindexLastCommonBlock: BlockIndex?
    var hashLastUnknownBlock: nat
  }

  // ---------- The last common ancestor ----------

  /** The deepest block two blocks have in common. */
  ghost predicate IsLastCommon(r: BlockIndex, a: BlockIndex, b: BlockIndex)
    requires a.Rooted() && b.Rooted()
  {
    && IsAncestor(r, a) && IsAncestor(r, b)
    && forall h :: r.nHeight < h <= a.nHeight && h <= b.nHeight ==> Ancestor(a, h) != Ancestor(b, h)
  }


  method LastCommonAncestor(a: BlockIndex, b: BlockIndex) returns (r: BlockIndex)
    requires a.Rooted() && b.Rooted() && Ancestor(a, 0) == Ancestor(b, 0)
    ensures r.Rooted() && IsLastCommon(r, a, b)
  {
    hide GetSkipHeight;
    var pa: BlockIndex? := a;
    var pb: BlockIndex? := b;
    if a.nHeight > b.nHeight {
      pa := a.GetAncestor(b.nHeight);
    } else if b.nHeight > a.nHeight {
      pb := b.GetAncestor(a.nHeight);
    }
    while pa != pb && pa != null && pb != null
      invariant pa != null && pb != null && pa.Rooted() && pb.Rooted() && pa.nHeight == pb.nHeight
      invariant IsAncestor(pa, a) && IsAncestor(pb, b)
      invariant forall h :: pa.nHeight < h <= a.nHeight && h <= b.nHeight ==> Ancestor(a, h) != Ancestor(b, h)
      decreases pa.nHeight
    {
      ParentOfAncestor(pa, a);
      ParentOfAncestor(pb, b);
      pa := pa.pprev;
      pb := pb.pprev;
    }
    r := pa;
  }

  // ---------- The blocks to fetch ----------

  /** The blocks towards `best` with heights above `lo` and up to `hi` that are neither here nor on their way, until
      the first block known to be invalid. */
  ghost function Missing(nodes: set<BlockIndex>, inFlight: map<nat, NodeId>, best: BlockIndex, lo: nat,
                         hi: nat): seq<BlockIndex>
    requires IsTree(nodes) && best in nodes && hi <= best.nHeight
    reads nodes
    decreases hi - lo
  {
    if lo >= hi then [] else
      var b := Ancestor(best, lo + 1);
      if !b.IsValid(VALID_TREE) then []
      else (if b.haveData || b.hash in inFlight then [] else [b]) + Missing(nodes, inFlight, best, lo + 1, hi)
  }

  /** A block between two heights towards `best` that is known to be valid so far, but neither here nor on its way. */
  ghost predicate Needed(inFlight: map<nat, NodeId>, best: BlockIndex, lo: nat, hi: nat, b: BlockIndex)
    requires best.Rooted() && hi <= best.nHeight
    reads b
  {
    lo < b.nHeight <= hi && b == Ancestor(best, b.nHeight) && !b.haveData && b.hash !in inFlight
      && b.IsValid(VALID_TREE)
  }

  predicate Ascending(v: seq<BlockIndex>) {
    forall i, j :: 0 <= i < j < |v| ==> v[i].nHeight < v[j].nHeight
  }

  /** What is fetched is what is needed, once and in order. */
  lemma {:induction false} MissingAreNeeded(nodes: set<BlockIndex>, inFlight: map<nat, NodeId>, best: BlockIndex,
                                            lo: nat, hi: nat)
    requires IsTree(nodes) && best in nodes && hi <= best.nHeight
    ensures var v := Missing(nodes, inFlight, best, lo, hi);
            && (forall b :: b in v ==> Needed(inFlight, best, lo, hi, b)) && Ascending(v)
    decreases hi - lo
  {
    hide Missing, Needed, BlockIndex.IsValid, GetSkipHeight;
    MissingStep(nodes, inFlight, best, lo, hi);
    if lo < hi {
      MissingAreNeeded(nodes, inFlight, best, lo + 1, hi);
      MissingIsNeeded(inFlight, best, lo, hi);
      var b, rest := Ancestor(best, lo + 1), Missing(nodes, inFlight, best, lo + 1, hi);
      forall n | n in rest
        ensures Needed(inFlight, best, lo, hi, n)
      {
        NeededFromLower(inFlight, best, lo, hi, n);
      }
      if b.IsValid(VALID_TREE) && !b.haveData && b.hash !in inFlight {
        OneMoreNeeded(inFlight, best, lo, hi, b, rest);
      }
    }
  }

  lemma MissingStep(nodes: set<BlockIndex>, inFlight: map<nat, NodeId>, best: BlockIndex, lo: nat, hi: nat)
    requires IsTree(nodes) && best in nodes && hi <= best.nHeight
    ensures Missing(nodes, inFlight, best, lo, hi) ==
            if lo >= hi || !Ancestor(best, lo + 1).IsValid(VALID_TREE) then []
            else if Ancestor(best, lo + 1).haveData || Ancestor(best, lo + 1).hash in inFlight
              then Missing(nodes, inFlight, best, lo + 1, hi)
            else [Ancestor(best, lo + 1)] + Missing(nodes, inFlight, best, lo + 1, hi)
  {
    if lo < hi {
      assert [] + Missing(nodes, inFlight, best, lo + 1, hi) == Missing(nodes, inFlight, best, lo + 1, hi);
    }
  }

  lemma MissingIsNeeded(inFlight: map<nat, NodeId>, best: BlockIndex, lo: nat, hi: nat)
    requires best.Rooted() && lo < hi <= best.nHeight
    ensures var b := Ancestor(best, lo + 1);
            Needed(inFlight, best, lo, hi, b) <==> !b.haveData && b.hash !in inFlight && b.IsValid(VALID_TREE)
  {
  }

  lemma NeededFromLower(inFlight: map<nat, NodeId>, best: BlockIndex, lo: nat, hi: nat, b: BlockIndex)
    requires best.Rooted() && hi <= best.nHeight && Needed(inFlight, best, lo + 1, hi, b)
    ensures Needed(inFlight, best, lo, hi, b)
  {
  }

  lemma OneMoreNeeded(inFlight: map<nat, NodeId>, best: BlockIndex, lo: nat, hi: nat, b: BlockIndex,
                      rest: seq<BlockIndex>)
    requires best.Rooted() && lo < hi <= best.nHeight && b.nHeight == lo + 1 && Needed(inFlight, best, lo, hi, b)
    requires forall b :: b in rest ==> Needed(inFlight, best, lo + 1, hi, b)
    requires Ascending(rest)
    ensures var v := [b] + rest;
            && (forall b :: b in v ==> Needed(inFlight, best, lo, hi, b))
            && Ascending(v)
  {
    hide GetSkipHeight;
    forall n | n in rest
      ensures n.nHeight > lo + 1
    {
      assert Needed(inFlight, best, lo + 1, hi, n);
    }
    AscendingFrom(b, rest);
  }

  lemma AscendingFrom(b: BlockIndex, rest: seq<BlockIndex>)
    requires Ascending(rest) && forall n :: n in rest ==> n.nHeight > b.nHeight
    ensures Ascending([b] + rest)
  {
    var v := [b] + rest;
    forall i, j | 0 <= i < j < |v|
      ensures v[i].nHeight < v[j].nHeight
    {
      assert v[j] == rest[j - 1] && v[j] in rest;
    }
  }

  /** Nothing needed is left out, unless a block towards `best` is known to be invalid. */
  lemma {:induction false} NeededAreMissing(nodes: set<BlockIndex>, inFlight: map<nat, NodeId>, best: BlockIndex,
                                            lo: nat, hi: nat, b: BlockIndex)
    requires IsTree(nodes) && best in nodes && hi <= best.nHeight && Needed(inFlight, best, lo, hi, b)
    requires forall h :: lo < h < b.nHeight ==> Ancestor(best, h).IsValid(VALID_TREE)
    ensures b in Missing(nodes, inFlight, best, lo, hi)
    decreases hi - lo
  {
    if lo + 1 < b.nHeight {
      assert Ancestor(best, lo + 1).IsValid(VALID_TREE);
      NeededAreMissing(nodes, inFlight, best, lo + 1, hi, b);
    }
  }

  /** The last unknown block of a peer is forgotten once it is known, and becomes the best known one unless another has
      more work. */
  predicate Updated(index: map<nat, BlockIndex>, was: BlockIndex?, unknown: nat, best: BlockIndex?, unknown1: nat) {
    var known := unknown != 0 && unknown in index && index[unknown].nChainWork > 0;
    && unknown1 == (if known then 0 else unknown)
    && best == if known && (was == null || index[unknown].nChainWork >= was.nChainWork) then index[unknown] else was
  }

  method ProcessBlockAvailability(state: NodeState, index: map<nat, BlockIndex>)
    modifies state
    ensures state.pindexLastCommonBlock == old(state.pindexLastCommonBlock)
    ensures Updated(index, old(state.pindexBestKnownBlock), old(state.hashLastUnknownBlock),
                    state.pindexBestKnownBlock, state.hashLastUnknownBlock)
  {
    if state.hashLastUnknownBlock != 0 {
      if state.hashLastUnknownBlock in index && index[state.hashLastUnknownBlock].nChainWork > 0 {
        var b := index[state.hashLastUnknownBlock];
        if state.pindexBestKnownBlock == null || b.nChainWork >= state.pindexBestKnownBlock.nChainWork {
          state.pindexBestKnownBlock := b;
        }
        state.hashLastUnknownBlock := 0;
      }
    }
  }

  /** The `n` successors of a block towards `best`, filled in from the last one. */
  method ReadSuccessors(best: BlockIndex, h: nat, n: nat) returns (v: seq<BlockIndex>)
    requires best.Rooted() && n > 0 && h + n <= best.nHeight
    ensures |v| == n && forall k :: 0 <= k < n ==> v[k] == Ancestor(best, h + 1 + k)
  {
    hide GetSkipHeight, BlockIndex.Rooted, Ancestor;
    var last := best.GetAncestor(h + n);
    v := seq(n, k => best)[n - 1 := last];
    var i := n - 1;
    while i > 0
      invariant 0 <= i < n && |v| == n
      invariant forall k :: i <= k < n ==> v[k] == Ancestor(best, h + 1 + k)
    {
      ParentAt(best, h + 1 + i);
      v := v[i - 1 := v[i].pprev];
      i := i - 1;
    }
  }

  // ---------- What a walk finds ----------

  /** Neither here nor on its way. */
  predicate Free(inFlight: map<nat, NodeId>, b: BlockIndex)
    reads b
  {
    !b.haveData && b.hash !in inFlight
  }

  /** On its way from a peer. */
  predicate Awaited(inFlight: map<nat, NodeId>, b: BlockIndex)
    reads b
  {
    !b.haveData && b.hash in inFlight && inFlight[b.hash] != -1
  }

  /** Here, with all its ancestors. */
  predicate Downloaded(b: BlockIndex)
    reads b
  {
    b.IsValid(VALID_TREE) && b.haveData && b.nChainTx != 0
  }

  /** The peer of the lowest block on its way between two heights; -1 if there is none. */
  ghost predicate IsFirstPeer(nodes: set<BlockIndex>, inFlight: map<nat, NodeId>, best: BlockIndex, lo: nat, hi: nat,
                              r: NodeId)
    requires IsTree(nodes) && best in nodes && hi <= best.nHeight
    reads nodes
  {
    if r == -1 then forall h :: lo < h <= hi ==> !Awaited(inFlight, Ancestor(best, h))
    else
      exists h :: lo < h <= hi && Awaited(inFlight, Ancestor(best, h)) && inFlight[Ancestor(best, h).hash] == r
                  && forall g :: lo < g < h ==> !Awaited(inFlight, Ancestor(best, g))
  }

  /** We could ask the peer for a block if the window were one larger, and it is for peer `r` that it cannot move on:
      everything within the window is here or on its way, the first of it from `r`. */
  ghost predicate Stalls(nodes: set<BlockIndex>, inFlight: map<nat, NodeId>, best: BlockIndex, common: BlockIndex,
                         r: NodeId)
    requires IsTree(nodes) && best in nodes
    reads nodes
  {
    var (lo, end) := (common.nHeight, common.nHeight + BLOCK_DOWNLOAD_WINDOW);
    && end < best.nHeight
    && (forall h :: lo < h <= end + 1 ==> Ancestor(best, h).IsValid(VALID_TREE))
    && (forall h :: lo < h <= end ==> !Free(inFlight, Ancestor(best, h)))
    && Free(inFlight, Ancestor(best, end + 1)) && IsFirstPeer(nodes, inFlight, best, lo, end, r)
  }

  /** The walk looks at a height: up to one above the window, all blocks before it are valid, and fewer blocks are
      needed before it than are asked for. */
  ghost predicate Reaches(nodes: set<BlockIndex>, inFlight: map<nat, NodeId>, best: BlockIndex, common: BlockIndex,
                          count: nat, h: nat)
    requires IsTree(nodes) && best in nodes
    reads nodes
  {
    && common.nHeight < h <= best.nHeight && h <= common.nHeight + BLOCK_DOWNLOAD_WINDOW + 1
    && (forall g :: common.nHeight < g < h ==> Ancestor(best, g).IsValid(VALID_TREE))
    && |Missing(nodes, inFlight, best, common.nHeight, h - 1)| < count
  }

  /** A peer is reported exactly if we are stalled and it is to blame, unless it is the one we would ask. */
  ghost predicate StallerOk(nodes: set<BlockIndex>, inFlight: map<nat, NodeId>, best: BlockIndex, common: BlockIndex,
                            nodeid: NodeId, r: NodeId)
    requires IsTree(nodes) && best in nodes
    reads nodes
  {
    && (r != -1 ==> r != nodeid && Stalls(nodes, inFlight, best, common, r))
    && forall p :: p != -1 && p != nodeid && Stalls(nodes, inFlight, best, common, p) ==> r == p
  }

  /** The last common block has moved on to the highest block looked at that is here with all its ancestors. */
  ghost predicate LastCommonOk(nodes: set<BlockIndex>, inFlight: map<nat, NodeId>, best: BlockIndex,
                               common: BlockIndex, count: nat, last: BlockIndex)
    requires IsTree(nodes) && best in nodes
    reads nodes, last
  {
    && (last == common || (Reaches(nodes, inFlight, best, common, count, last.nHeight) && Downloaded(last)))
    && forall h: nat :: Reaches(nodes, inFlight, best, common, count, h) && Downloaded(Ancestor(best, h)) ==>
         h <= last.nHeight
  }

  /** All blocks up to a height have been looked at. */
  ghost predicate WalkedTo(nodes: set<BlockIndex>, inFlight: map<nat, NodeId>, best: BlockIndex, common: BlockIndex,
                           at: nat, vBlocks: seq<BlockIndex>, waitingFor: NodeId, last: BlockIndex)
    requires IsTree(nodes) && best in nodes
    reads nodes, last
  {
    var (lo, end) := (common.nHeight, common.nHeight + BLOCK_DOWNLOAD_WINDOW);
    && lo <= at <= best.nHeight && at <= end + 1
    && (forall h :: lo < h <= at ==> Ancestor(best, h).IsValid(VALID_TREE))
    && (forall h :: end < h <= at ==> !Free(inFlight, Ancestor(best, h)))
    && vBlocks == Missing(nodes, inFlight, best, lo, at)
    && IsFirstPeer(nodes, inFlight, best, lo, at, waitingFor)
    && (last == common || (lo < last.nHeight <= at && Downloaded(last)))
    && forall h :: lo < h <= at && Downloaded(Ancestor(best, h)) ==> h <= last.nHeight
  }

  lemma {:induction false} MissingSnoc(nodes: set<BlockIndex>, inFlight: map<nat, NodeId>, best: BlockIndex, lo: nat,
                                       at: nat)
    requires IsTree(nodes) && best in nodes && lo <= at < best.nHeight
    requires forall h :: lo < h <= at ==> Ancestor(best, h).IsValid(VALID_TREE)
    ensures var b := Ancestor(best, at + 1);
            Missing(nodes, inFlight, best, lo, at + 1) ==
            Missing(nodes, inFlight, best, lo, at) +
              if b.IsValid(VALID_TREE) && Free(inFlight, b) then [b] else []
    decreases at - lo
  {
    hide GetSkipHeight, BlockIndex.Rooted, Missing;
    MissingStep(nodes, inFlight, best, lo, at + 1);
    MissingStep(nodes, inFlight, best, lo, at);
    MissingStep(nodes, inFlight, best, at + 1, at + 1);
    if lo < at {
      assert Ancestor(best, lo + 1).IsValid(VALID_TREE);
      MissingSnoc(nodes, inFlight, best, lo + 1, at);
    }
  }

  lemma {:induction false} MissingGrows(nodes: set<BlockIndex>, inFlight: map<nat, NodeId>, best: BlockIndex,
                                        lo: nat, a: nat, b: nat)
    requires IsTree(nodes) && best in nodes && lo <= a <= b <= best.nHeight
    requires forall h :: lo < h <= b ==> Ancestor(best, h).IsValid(VALID_TREE)
    ensures |Missing(nodes, inFlight, best, lo, a)| <= |Missing(nodes, inFlight, best, lo, b)|
    decreases b - a
  {
    hide GetSkipHeight, BlockIndex.Rooted, Missing, BlockIndex.IsValid;
    if a < b {
      MissingGrows(nodes, inFlight, best, lo, a, b - 1);
      MissingSnoc(nodes, inFlight, best, lo, b - 1);
    }
  }

  /** Nothing is missing if and only if everything is here or on its way. */
  lemma NothingFree(nodes: set<BlockIndex>, inFlight: map<nat, NodeId>, best: BlockIndex, lo: nat, at: nat)
    requires IsTree(nodes) && best in nodes && lo <= at <= best.nHeight
    requires forall h :: lo < h <= at ==> Ancestor(best, h).IsValid(VALID_TREE)
    ensures Missing(nodes, inFlight, best, lo, at) == [] <==>
            forall h :: lo < h <= at ==> !Free(inFlight, Ancestor(best, h))
  {
    hide GetSkipHeight, BlockIndex.Rooted, Missing, BlockIndex.IsValid, Ascending;
    var v := Missing(nodes, inFlight, best, lo, at);
    MissingAreNeeded(nodes, inFlight, best, lo, at);
    if v != [] {
      assert v[0] in v && Needed(inFlight, best, lo, at, v[0]);
      assert Free(inFlight, Ancestor(best, v[0].nHeight));
    }
    forall h | lo < h <= at && Free(inFlight, Ancestor(best, h))
      ensures v != []
    {
      NeededAreMissing(nodes, inFlight, best, lo, at, Ancestor(best, h));
    }
    assert v != [] ==> exists h :: lo < h <= at && Free(inFlight, Ancestor(best, h));
  }

  lemma FirstPeerNext(nodes: set<BlockIndex>, inFlight: map<nat, NodeId>, best: BlockIndex, lo: nat, at: nat, r: NodeId)
    requires IsTree(nodes) && best in nodes && lo <= at < best.nHeight && IsFirstPeer(nodes, inFlight, best, lo, at, r)
    ensures var b := Ancestor(best, at + 1);
            IsFirstPeer(nodes, inFlight, best, lo, at + 1,
                        if r == -1 && Awaited(inFlight, b) then inFlight[b.hash] else r)
  {
    hide GetSkipHeight, BlockIndex.Rooted, Ancestor;
  }

  lemma FirstPeerIsOne(nodes: set<BlockIndex>, inFlight: map<nat, NodeId>, best: BlockIndex, lo: nat, hi: nat,
                       p: NodeId, r: NodeId)
    requires IsTree(nodes) && best in nodes && hi <= best.nHeight
    requires IsFirstPeer(nodes, inFlight, best, lo, hi, p) && IsFirstPeer(nodes, inFlight, best, lo, hi, r)
    ensures p == r
  {
    hide GetSkipHeight, BlockIndex.Rooted, Ancestor;
  }

  lemma WalkStarts(nodes: set<BlockIndex>, inFlight: map<nat, NodeId>, best: BlockIndex, common: BlockIndex)
    requires IsTree(nodes) && best in nodes && common.nHeight <= best.nHeight
    ensures WalkedTo(nodes, inFlight, best, common, common.nHeight, [], -1, common)
  {
  }

  lemma WalkOn(nodes: set<BlockIndex>, inFlight: map<nat, NodeId>, best: BlockIndex, common: BlockIndex, at: nat,
               vBlocks: seq<BlockIndex>, waitingFor: NodeId, last: BlockIndex)
    requires IsTree(nodes) && best in nodes && at < best.nHeight && at <= common.nHeight + BLOCK_DOWNLOAD_WINDOW
    requires WalkedTo(nodes, inFlight, best, common, at, vBlocks, waitingFor, last)
    requires Ancestor(best, at + 1).IsValid(VALID_TREE)
    requires Free(inFlight, Ancestor(best, at + 1)) ==> at < common.nHeight + BLOCK_DOWNLOAD_WINDOW
    ensures var b := Ancestor(best, at + 1);
            WalkedTo(nodes, inFlight, best, common, at + 1, if Free(inFlight, b) then vBlocks + [b] else vBlocks,
                     if waitingFor == -1 && Awaited(inFlight, b) then inFlight[b.hash] else waitingFor,
                     if Downloaded(b) then b else last)
  {
    hide GetSkipHeight, BlockIndex.Rooted, Missing, IsFirstPeer, BlockIndex.IsValid, Ancestor;
    MissingSnoc(nodes, inFlight, best, common.nHeight, at);
    FirstPeerNext(nodes, inFlight, best, common.nHeight, at, waitingFor);
  }

  /** Why a walk ends after some height: it has come to its last block, or the next block is invalid, or free but
      above the window, or the last one asked for. */
  ghost predicate EndsAt(nodes: set<BlockIndex>, inFlight: map<nat, NodeId>, best: BlockIndex, common: BlockIndex,
                         count: nat, at: nat, vBlocks: seq<BlockIndex>)
    requires IsTree(nodes) && best in nodes
    reads nodes
  {
    var end := common.nHeight + BLOCK_DOWNLOAD_WINDOW;
    at == Min(best.nHeight, end + 1) ||
      (at < best.nHeight && at <= end &&
       var b := Ancestor(best, at + 1);
       !b.IsValid(VALID_TREE) || (Free(inFlight, b) && (at == end || |vBlocks| + 1 == count)))
  }

  lemma NothingBeyond(nodes: set<BlockIndex>, inFlight: map<nat, NodeId>, best: BlockIndex, common: BlockIndex,
                      count: nat, at: nat, vBlocks: seq<BlockIndex>, waitingFor: NodeId, last: BlockIndex, h: nat)
    requires IsTree(nodes) && best in nodes && WalkedTo(nodes, inFlight, best, common, at, vBlocks, waitingFor, last)
    requires EndsAt(nodes, inFlight, best, common, count, at, vBlocks)
    requires h > at && Reaches(nodes, inFlight, best, common, count, h)
    ensures !Downloaded(Ancestor(best, h))
  {
    hide GetSkipHeight, BlockIndex.Rooted, Missing, IsFirstPeer, BlockIndex.IsValid, Ancestor;
    var b := Ancestor(best, at + 1);
    if b.IsValid(VALID_TREE) && h > at + 1 {
      MissingSnoc(nodes, inFlight, best, common.nHeight, at);
      MissingGrows(nodes, inFlight, best, common.nHeight, at + 1, h - 1);
    }
  }

  lemma LookedAt(nodes: set<BlockIndex>, inFlight: map<nat, NodeId>, best: BlockIndex, common: BlockIndex,
                 count: nat, at: nat, vBlocks: seq<BlockIndex>, waitingFor: NodeId, last: BlockIndex, h: nat)
    requires IsTree(nodes) && best in nodes && WalkedTo(nodes, inFlight, best, common, at, vBlocks, waitingFor, last)
    requires |vBlocks| < count && common.nHeight < h <= at
    ensures Reaches(nodes, inFlight, best, common, count, h)
  {
    hide GetSkipHeight, BlockIndex.Rooted, Missing, IsFirstPeer, BlockIndex.IsValid, Ancestor;
    MissingGrows(nodes, inFlight, best, common.nHeight, h - 1, at);
  }

  lemma LastCommonIsRight(nodes: set<BlockIndex>, inFlight: map<nat, NodeId>, best: BlockIndex, common: BlockIndex,
                          count: nat, at: nat, vBlocks: seq<BlockIndex>, waitingFor: NodeId, last: BlockIndex)
    requires IsTree(nodes) && best in nodes && WalkedTo(nodes, inFlight, best, common, at, vBlocks, waitingFor, last)
    requires |vBlocks| < count && EndsAt(nodes, inFlight, best, common, count, at, vBlocks)
    ensures LastCommonOk(nodes, inFlight, best, common, count, last)
  {
    hide GetSkipHeight, BlockIndex.Rooted, Missing, IsFirstPeer, Downloaded, EndsAt, Reaches, Ancestor;
    if last != common {
      LookedAt(nodes, inFlight, best, common, count, at, vBlocks, waitingFor, last, last.nHeight);
    }
    forall h: nat | Reaches(nodes, inFlight, best, common, count, h) && h <= best.nHeight
                    && Downloaded(Ancestor(best, h))
      ensures h <= last.nHeight
    {
      ReachesAbove(nodes, inFlight, best, common, count, h);
      if h > at {
        NothingBeyond(nodes, inFlight, best, common, count, at, vBlocks, waitingFor, last, h);
      }
    }
    assert forall h: nat :: Reaches(nodes, inFlight, best, common, count, h) ==> common.nHeight < h <= best.nHeight by {
      forall h: nat | Reaches(nodes, inFlight, best, common, count, h)
        ensures common.nHeight < h <= best.nHeight
      {
        ReachesAbove(nodes, inFlight, best, common, count, h);
      }
    }
  }

  lemma ReachesAbove(nodes: set<BlockIndex>, inFlight: map<nat, NodeId>, best: BlockIndex, common: BlockIndex,
                     count: nat, h: nat)
    requires IsTree(nodes) && best in nodes && Reaches(nodes, inFlight, best, common, count, h)
    ensures common.nHeight < h <= best.nHeight
  {
  }

  /** The walk ends stalled: nothing could be asked for within the window, but the next block could. */
  ghost predicate EndsStalled(nodes: set<BlockIndex>, inFlight: map<nat, NodeId>, best: BlockIndex,
                              common: BlockIndex, at: nat, vBlocks: seq<BlockIndex>)
    requires IsTree(nodes) && best in nodes
    reads nodes
  {
    && at < best.nHeight && at == common.nHeight + BLOCK_DOWNLOAD_WINDOW && vBlocks == []
    && Ancestor(best, at + 1).IsValid(VALID_TREE) && Free(inFlight, Ancestor(best, at + 1))
  }

  lemma StalledForPeer(nodes: set<BlockIndex>, inFlight: map<nat, NodeId>, best: BlockIndex, common: BlockIndex,
                       count: nat, at: nat, vBlocks: seq<BlockIndex>, waitingFor: NodeId, last: BlockIndex, p: NodeId)
    requires IsTree(nodes) && best in nodes && WalkedTo(nodes, inFlight, best, common, at, vBlocks, waitingFor, last)
    requires EndsAt(nodes, inFlight, best, common, count, at, vBlocks) && Stalls(nodes, inFlight, best, common, p)
    ensures EndsStalled(nodes, inFlight, best, common, at, vBlocks) && p == waitingFor
  {
    hide GetSkipHeight, BlockIndex.Rooted, Missing, IsFirstPeer, BlockIndex.IsValid, Ancestor;
    NothingFree(nodes, inFlight, best, common.nHeight, at);
    if at == common.nHeight + BLOCK_DOWNLOAD_WINDOW {
      FirstPeerIsOne(nodes, inFlight, best, common.nHeight, at, p, waitingFor);
    }
  }

  lemma EndsStalledForPeer(nodes: set<BlockIndex>, inFlight: map<nat, NodeId>, best: BlockIndex, common: BlockIndex,
                           at: nat, vBlocks: seq<BlockIndex>, waitingFor: NodeId, last: BlockIndex)
    requires IsTree(nodes) && best in nodes && WalkedTo(nodes, inFlight, best, common, at, vBlocks, waitingFor, last)
    requires EndsStalled(nodes, inFlight, best, common, at, vBlocks)
    ensures Stalls(nodes, inFlight, best, common, waitingFor)
  {
    hide GetSkipHeight, BlockIndex.Rooted, Missing, IsFirstPeer, BlockIndex.IsValid, Ancestor;
    NothingFree(nodes, inFlight, best, common.nHeight, at);
    var (lo, end) := (common.nHeight, common.nHeight + BLOCK_DOWNLOAD_WINDOW);
    assert forall h :: lo < h <= end + 1 ==> Ancestor(best, h).IsValid(VALID_TREE);
    assert forall h :: lo < h <= end ==> !Free(inFlight, Ancestor(best, h));
  }

  lemma StallerIsRight(nodes: set<BlockIndex>, inFlight: map<nat, NodeId>, best: BlockIndex, common: BlockIndex,
                       nodeid: NodeId, count: nat, at: nat, vBlocks: seq<BlockIndex>, waitingFor: NodeId,
                       last: BlockIndex, r: NodeId)
    requires IsTree(nodes) && best in nodes && WalkedTo(nodes, inFlight, best, common, at, vBlocks, waitingFor, last)
    requires EndsAt(nodes, inFlight, best, common, count, at, vBlocks)
    requires r == if EndsStalled(nodes, inFlight, best, common, at, vBlocks) && waitingFor != nodeid then waitingFor
                  else -1
    ensures StallerOk(nodes, inFlight, best, common, nodeid, r)
  {
    hide GetSkipHeight, BlockIndex.Rooted, Stalls, WalkedTo, EndsAt, EndsStalled;
    if EndsStalled(nodes, inFlight, best, common, at, vBlocks) {
      EndsStalledForPeer(nodes, inFlight, best, common, at, vBlocks, waitingFor, last);
    }
    forall p | Stalls(nodes, inFlight, best, common, p)
      ensures EndsStalled(nodes, inFlight, best, common, at, vBlocks) && p == waitingFor
    {
      StalledForPeer(nodes, inFlight, best, common, count, at, vBlocks, waitingFor, last, p);
    }
  }

  lemma WalkEnds(nodes: set<BlockIndex>, inFlight: map<nat, NodeId>, best: BlockIndex, common: BlockIndex,
                 nodeid: NodeId, count: nat, at: nat, vBlocks: seq<BlockIndex>, waitingFor: NodeId, last: BlockIndex)
    requires IsTree(nodes) && best in nodes && WalkedTo(nodes, inFlight, best, common, at, vBlocks, waitingFor, last)
    requires EndsAt(nodes, inFlight, best, common, count, at, vBlocks) && |vBlocks| < count
    ensures StallerOk(nodes, inFlight, best, common, nodeid,
                      if EndsStalled(nodes, inFlight, best, common, at, vBlocks) && waitingFor != nodeid
                      then waitingFor else -1)
    ensures LastCommonOk(nodes, inFlight, best, common, count, last)
  {
    hide WalkedTo, EndsAt, EndsStalled, StallerOk, LastCommonOk, BlockIndex.Rooted, GetSkipHeight, IsTree;
    StallerIsRight(nodes, inFlight, best, common, nodeid, count, at, vBlocks, waitingFor, last,
                   if EndsStalled(nodes, inFlight, best, common, at, vBlocks) && waitingFor != nodeid then waitingFor
                   else -1);
    LastCommonIsRight(nodes, inFlight, best, common, count, at, vBlocks, waitingFor, last);
  }

  function Prefix(v: seq<BlockIndex>, n: nat): seq<BlockIndex> { if |v| <= n then v else v[..n] }

  /** The end of a batch is looked at only if the window allows it. */
  ghost predicate Scanned(nodes: set<BlockIndex>, inFlight: map<nat, NodeId>, best: BlockIndex, lo: nat, hi: nat,
                          at: nat, vBlocks: seq<BlockIndex>)
    requires IsTree(nodes) && best in nodes && hi <= best.nHeight
    reads nodes
  {
    vBlocks + Missing(nodes, inFlight, best, at, hi) == Missing(nodes, inFlight, best, lo, hi)
  }

  lemma ScannedNext(nodes: set<BlockIndex>, inFlight: map<nat, NodeId>, best: BlockIndex, lo: nat, hi: nat, at: nat,
                    vBlocks: seq<BlockIndex>)
    requires IsTree(nodes) && best in nodes && hi <= best.nHeight && lo <= at
    requires Scanned(nodes, inFlight, best, lo, hi, at, vBlocks)
    ensures at < best.nHeight ==>
              var b := Ancestor(best, at + 1);
              if at < hi && !b.IsValid(VALID_TREE) then vBlocks == Missing(nodes, inFlight, best, lo, hi)
              else if at >= hi || b.haveData || b.hash in inFlight
                then Scanned(nodes, inFlight, best, lo, hi, at + 1, vBlocks)
              else Scanned(nodes, inFlight, best, lo, hi, at + 1, vBlocks + [b])
    ensures at >= hi ==> vBlocks == Missing(nodes, inFlight, best, lo, hi)
  {
    hide GetSkipHeight;
    var rest := Missing(nodes, inFlight, best, at + 1, hi);
    assert at >= hi ==> vBlocks + [] == vBlocks;
    if at < hi {
      var b := Ancestor(best, at + 1);
      assert vBlocks + ([b] + rest) == vBlocks + [b] + rest && [] + rest == rest;
    }
  }

  /** The first `count` blocks needed of a peer, within the window that starts at the last block in common. */
  ghost predicate IsSchedule(nodes: set<BlockIndex>, inFlight: map<nat, NodeId>, best: BlockIndex, common: BlockIndex,
                             count: nat, vBlocks: seq<BlockIndex>)
    requires IsTree(nodes) && best in nodes
    reads nodes
  {
    var hi := Min(best.nHeight, common.nHeight + BLOCK_DOWNLOAD_WINDOW);
    vBlocks == Prefix(Missing(nodes, inFlight, best, common.nHeight, hi), count)
  }

  /** The peer's own record stays right: what it has in common with us is on the way to its best block. */
  ghost predicate StateOk(state: NodeState, best: BlockIndex, common: BlockIndex)
    requires best.Rooted()
    reads state
  {
    && state.pindexBestKnownBlock == best && state.pindexLastCommonBlock != null
    && IsAncestor(state.pindexLastCommonBlock, best) && common.nHeight <= state.pindexLastCommonBlock.nHeight
  }

  /** Looks at one block on the way, at height `at + 1`, and tells whether to go on. */
  method Consider(nodes: set<BlockIndex>, inFlight: map<nat, NodeId>, state: NodeState, best: BlockIndex,
                  common: BlockIndex, nodeid: NodeId, count: nat, pindex: BlockIndex, ghost at: nat,
                  vBlocks: seq<BlockIndex>, waitingFor: NodeId)
    returns (done: bool, more: seq<BlockIndex>, waiting: NodeId, nodeStaller: NodeId)
    requires IsTree(nodes) && best in nodes && IsAncestor(common, best) && StateOk(state, best, common)
    requires common.nHeight <= at < best.nHeight && at <= common.nHeight + BLOCK_DOWNLOAD_WINDOW
             && pindex == Ancestor(best, at + 1)
    requires ScannedTo(nodes, inFlight, best, common, at, vBlocks) && |vBlocks| < count
    requires WalkedTo(nodes, inFlight, best, common, at, vBlocks, waitingFor, state.pindexLastCommonBlock)
    modifies state
    ensures StateOk(state, best, common) && state.hashLastUnknownBlock == old(state.hashLastUnknownBlock)
    ensures !done ==>
            && ScannedTo(nodes, inFlight, best, common, at + 1, more) && |more| < count && nodeStaller == -1
            && WalkedTo(nodes, inFlight, best, common, at + 1, more, waiting, state.pindexLastCommonBlock)
    ensures done ==>
            && IsSchedule(nodes, inFlight, best, common, count, more)
            && StallerOk(nodes, inFlight, best, common, nodeid, nodeStaller) && (nodeStaller != -1 ==> more == [])
            && LastCommonOk(nodes, inFlight, best, common, count, state.pindexLastCommonBlock)
  {
    hide Missing, GetSkipHeight, WalkedTo, StallerOk, LastCommonOk, BlockIndex.Rooted, Ancestor;
    ghost var last := state.pindexLastCommonBlock;
    if EndsAt(nodes, inFlight, best, common, count, at, vBlocks) {
      WalkEnds(nodes, inFlight, best, common, nodeid, count, at, vBlocks, waitingFor, last);
    } else {
      WalkOn(nodes, inFlight, best, common, at, vBlocks, waitingFor, last);
    }
    var nWindowEnd := common.nHeight + BLOCK_DOWNLOAD_WINDOW;
    ScannedNext(nodes, inFlight, best, common.nHeight, Min(best.nHeight, nWindowEnd), at, vBlocks);
    done, more, waiting, nodeStaller := false, vBlocks, waitingFor, -1;
    if !pindex.IsValid(VALID_TREE) {
      done := true;
    } else if pindex.haveData {
      if pindex.nChainTx != 0 {
        state.pindexLastCommonBlock := pindex;
      }
    } else if pindex.hash !in inFlight {
      if pindex.nHeight > nWindowEnd {
        if |vBlocks| == 0 && waitingFor != nodeid {
          nodeStaller := waitingFor;
        }
        done := true;
      } else {
        more := vBlocks + [pindex];
        done := |more| == count;
      }
    } else if waitingFor == -1 {
      waiting := inFlight[pindex.hash];
    }
  }

  /** Everything up to a height has been looked at. */
  ghost predicate ScannedTo(nodes: set<BlockIndex>, inFlight: map<nat, NodeId>, best: BlockIndex, common: BlockIndex,
                            at: nat, vBlocks: seq<BlockIndex>)
    requires IsTree(nodes) && best in nodes
    reads nodes
  {
    Scanned(nodes, inFlight, best, common.nHeight, Min(best.nHeight, common.nHeight + BLOCK_DOWNLOAD_WINDOW), at,
            vBlocks)
  }

  lemma NothingScanned(nodes: set<BlockIndex>, inFlight: map<nat, NodeId>, best: BlockIndex, common: BlockIndex)
    requires IsTree(nodes) && best in nodes
    ensures ScannedTo(nodes, inFlight, best, common, common.nHeight, [])
  {
  }

  lemma AllScanned(nodes: set<BlockIndex>, inFlight: map<nat, NodeId>, best: BlockIndex, common: BlockIndex, at: nat,
                   vBlocks: seq<BlockIndex>, count: nat)
    requires IsTree(nodes) && best in nodes && common.nHeight <= at && |vBlocks| < count
    requires ScannedTo(nodes, inFlight, best, common, at, vBlocks)
             && at >= Min(best.nHeight, common.nHeight + BLOCK_DOWNLOAD_WINDOW)
    ensures IsSchedule(nodes, inFlight, best, common, count, vBlocks)
  {
    hide Missing, GetSkipHeight;
    ScannedNext(nodes, inFlight, best, common.nHeight, Min(best.nHeight, common.nHeight + BLOCK_DOWNLOAD_WINDOW), at,
                vBlocks);
  }

  /** Walks from the last common block towards the peer's best block. */
  method FetchTowards(nodes: set<BlockIndex>, inFlight: map<nat, NodeId>, state: NodeState, best: BlockIndex,
                      common: BlockIndex, nodeid: NodeId, count: nat)
    returns (vBlocks: seq<BlockIndex>, nodeStaller: NodeId)
    requires IsTree(nodes) && best in nodes && IsAncestor(common, best) && common != best && count > 0
    requires StateOk(state, best, common) && state.pindexLastCommonBlock == common
    modifies state
    ensures StateOk(state, best, common) && state.hashLastUnknownBlock == old(state.hashLastUnknownBlock)
    ensures IsSchedule(nodes, inFlight, best, common, count, vBlocks)
    ensures StallerOk(nodes, inFlight, best, common, nodeid, nodeStaller) && (nodeStaller != -1 ==> vBlocks == [])
    ensures LastCommonOk(nodes, inFlight, best, common, count, state.pindexLastCommonBlock)
  {
    hide Missing, Scanned, ScannedTo, GetSkipHeight, IsSchedule, Ancestor, BlockIndex.Rooted, WalkedTo, StallerOk,
      LastCommonOk;
    var nMaxHeight := Min(best.nHeight, common.nHeight + BLOCK_DOWNLOAD_WINDOW + 1);
    var walk: BlockIndex := common;
    var waitingFor: NodeId := -1;
    vBlocks, nodeStaller := [], -1;
    NothingScanned(nodes, inFlight, best, common);
    WalkStarts(nodes, inFlight, best, common);
    while walk.nHeight < nMaxHeight
      invariant common.nHeight <= walk.nHeight <= nMaxHeight && StateOk(state, best, common)
      invariant state.hashLastUnknownBlock == old(state.hashLastUnknownBlock)
      invariant ScannedTo(nodes, inFlight, best, common, walk.nHeight, vBlocks) && |vBlocks| < count
                && nodeStaller == -1
      invariant WalkedTo(nodes, inFlight, best, common, walk.nHeight, vBlocks, waitingFor, state.pindexLastCommonBlock)
      decreases nMaxHeight - walk.nHeight
    {
      ghost var start := walk.nHeight;
      var nToFetch := Min(nMaxHeight - walk.nHeight, Max(count - |vBlocks|, 128));
      var vToFetch := ReadSuccessors(best, walk.nHeight, nToFetch);
      walk := vToFetch[nToFetch - 1];
      for i := 0 to nToFetch
        invariant StateOk(state, best, common) && state.hashLastUnknownBlock == old(state.hashLastUnknownBlock)
        invariant ScannedTo(nodes, inFlight, best, common, start + i, vBlocks) && |vBlocks| < count && nodeStaller == -1
        invariant WalkedTo(nodes, inFlight, best, common, start + i, vBlocks, waitingFor, state.pindexLastCommonBlock)
      {
        var done;
        done, vBlocks, waitingFor, nodeStaller :=
          Consider(nodes, inFlight, state, best, common, nodeid, count, vToFetch[i], start + i, vBlocks, waitingFor);
        if done {
          return;
        }
      }
    }
    AllScanned(nodes, inFlight, best, common, walk.nHeight, vBlocks, count);
    assert EndsAt(nodes, inFlight, best, common, count, walk.nHeight, vBlocks);
    WalkEnds(nodes, inFlight, best, common, nodeid, count, walk.nHeight, vBlocks, waitingFor,
             state.pindexLastCommonBlock);
  }

  /** The entries known, all descending from one genesis block, by their hashes. */
  ghost predicate IndexOk(nodes: set<BlockIndex>, index: map<nat, BlockIndex>, genesis: BlockIndex) {
    && IsTree(nodes) && (forall b :: b in nodes ==> Ancestor(b, 0) == genesis)
    && forall hash :: hash in index ==> index[hash] in nodes
  }

  ghost predicate PeerOk(nodes: set<BlockIndex>, state: NodeState)
    reads state
  {
    && (state.pindexBestKnownBlock != null ==> state.pindexBestKnownBlock in nodes)
    && (state.pindexLastCommonBlock != null ==> state.pindexLastCommonBlock in nodes)
  }

  /** Where the peer's chain and ours are taken to part: `guess` is what was known of it, or is guessed from our tip. */
  ghost predicate IsCommon(chain: Chain, best: BlockIndex, last: BlockIndex?, common: BlockIndex)
    requires best.Rooted() && chain.Valid()
    reads chain
  {
    var guess := if last != null then last else chain.At(Min(best.nHeight, chain.Height()));
    guess != null && guess.Rooted() && IsLastCommon(common, guess, best)
  }

  lemma CommonGenesis(nodes: set<BlockIndex>, index: map<nat, BlockIndex>, genesis: BlockIndex, a: BlockIndex,
                      b: BlockIndex)
    requires IndexOk(nodes, index, genesis) && a in nodes && b in nodes
    ensures a.Rooted() && b.Rooted() && Ancestor(a, 0) == Ancestor(b, 0)
  {
  }

  lemma GuessIsNode(nodes: set<BlockIndex>, v: seq<BlockIndex?>, h: nat)
    requires IsTree(nodes) && IsPath(v) && h < |v| && v[|v| - 1] in nodes
    ensures v[h] != null && v[h] in nodes
  {
    assert v[h] == Ancestor(v[|v| - 1], h);
  }

  /** The next blocks to ask a peer for, at most `count`, and whom we are waiting for if there is nothing to ask for. */
  method FindNextBlocksToDownload(nodes: set<BlockIndex>, index: map<nat, BlockIndex>, ghost genesis: BlockIndex,
                                  chain: Chain, inFlight: map<nat, NodeId>, state: NodeState, nodeid: NodeId,
                                  count: nat)
    returns (vBlocks: seq<BlockIndex>, nodeStaller: NodeId, ghost common: BlockIndex?)
    requires IndexOk(nodes, index, genesis) && PeerOk(nodes, state)
    requires chain.Valid() && chain.Tip() != null && chain.Tip() in nodes
    modifies state
    ensures PeerOk(nodes, state)
    ensures if count == 0 then
              && common == null && state.pindexBestKnownBlock == old(state.pindexBestKnownBlock)
              && state.hashLastUnknownBlock == old(state.hashLastUnknownBlock)
            else
              Updated(index, old(state.pindexBestKnownBlock), old(state.hashLastUnknownBlock),
                      state.pindexBestKnownBlock, state.hashLastUnknownBlock)
    ensures count > 0 ==> var best := state.pindexBestKnownBlock;
              (common == null <==> best == null || best.nChainWork < chain.Tip().nChainWork)
    ensures common == null ==>
            vBlocks == [] && nodeStaller == -1 && state.pindexLastCommonBlock == old(state.pindexLastCommonBlock)
    ensures common != null ==> var best := state.pindexBestKnownBlock;
              && best != null && best.Rooted() && IsCommon(chain, best, old(state.pindexLastCommonBlock), common)
              && StateOk(state, best, common) && IsSchedule(nodes, inFlight, best, common, count, vBlocks)
              && StallerOk(nodes, inFlight, best, common, nodeid, nodeStaller) && (nodeStaller != -1 ==> vBlocks == [])
              && LastCommonOk(nodes, inFlight, best, common, count, state.pindexLastCommonBlock)
  {
    hide Missing, GetSkipHeight, IsSchedule, PathTo, Scanned, IsCommon, IsPath;
    vBlocks, nodeStaller, common := [], -1, null;
    if count == 0 {
      return;
    }
    ProcessBlockAvailability(state, index);
    var best := state.pindexBestKnownBlock;
    if best == null || best.nChainWork < chain.Tip().nChainWork {
      return;
    }
    var last := FindCommon(nodes, index, genesis, chain, state, best);
    common := last;
    if last == best {
      NothingMissing(nodes, inFlight, best, count);
      return;
    }
    vBlocks, nodeStaller := FetchTowards(nodes, inFlight, state, best, last, nodeid, count);
    assert state.pindexLastCommonBlock == Ancestor(best, state.pindexLastCommonBlock.nHeight);
  }

  /** Guesses where the peer's chain and ours part, if nothing is known yet, and goes back as far as needed. */
  method FindCommon(nodes: set<BlockIndex>, index: map<nat, BlockIndex>, ghost genesis: BlockIndex, chain: Chain,
                    state: NodeState, best: BlockIndex)
    returns (last: BlockIndex)
    requires IndexOk(nodes, index, genesis) && PeerOk(nodes, state) && best in nodes
             && state.pindexBestKnownBlock == best
    requires chain.Valid() && chain.Tip() != null && chain.Tip() in nodes
    modifies state`pindexLastCommonBlock
    ensures best.Rooted() && IsAncestor(last, best) && IsCommon(chain, best, old(state.pindexLastCommonBlock), last)
    ensures state.pindexLastCommonBlock == last
  {
    hide Missing, GetSkipHeight, IsSchedule, PathTo, Scanned;
    if state.pindexLastCommonBlock == null {
      GuessIsNode(nodes, chain.vChain, Min(best.nHeight, chain.Height()));
      state.pindexLastCommonBlock := chain.At(Min(best.nHeight, chain.Height()));
    }
    CommonGenesis(nodes, index, genesis, state.pindexLastCommonBlock, best);
    last := LastCommonAncestor(state.pindexLastCommonBlock, best);
    state.pindexLastCommonBlock := last;
  }

  lemma NothingMissing(nodes: set<BlockIndex>, inFlight: map<nat, NodeId>, best: BlockIndex, count: nat)
    requires IsTree(nodes) && best in nodes
    ensures IsSchedule(nodes, inFlight, best, best, count, [])
  {
  }

  /** What a peer is asked for: at most so many blocks, all needed, all within the window, in order of height. */
  lemma ScheduleIsWithinWindow(nodes: set<BlockIndex>, inFlight: map<nat, NodeId>, best: BlockIndex, common: BlockIndex,
                               count: nat, vBlocks: seq<BlockIndex>)
    requires IsTree(nodes) && best in nodes && IsSchedule(nodes, inFlight, best, common, count, vBlocks)
    ensures |vBlocks| <= count
    ensures forall b :: b in vBlocks ==>
              Needed(inFlight, best, common.nHeight, Min(best.nHeight, common.nHeight + BLOCK_DOWNLOAD_WINDOW), b)
    ensures Ascending(vBlocks)
  {
    hide Missing, GetSkipHeight;
    var hi := Min(best.nHeight, common.nHeight + BLOCK_DOWNLOAD_WINDOW);
    MissingAreNeeded(nodes, inFlight, best, common.nHeight, hi);
  }
}
