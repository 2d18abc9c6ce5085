/** The active chain: its blocks by height, the fork with another block, and the locator that tells a peer where one
    is. */
module ActiveChain {
  import opened Common
  import opened BlockIndexes

  /** The blocks up to `b` by height. */
  ghost function PathTo(b: BlockIndex): (r: seq<BlockIndex?>)
    requires b.Rooted()
    ensures |r| == b.nHeight + 1 && r[b.nHeight] == b
    ensures forall i :: 0 <= i < |r| ==> r[i] == Ancestor(b, i)
  {
    seq(b.nHeight + 1, i requires 0 <= i <= b.nHeight => Ancestor(b, i))
  }

  ghost predicate IsPath(v: seq<BlockIndex?>) {
    v != [] ==> var tip := v[|v| - 1]; tip != null && tip.Rooted() && tip.nHeight == |v| - 1 && v == PathTo(tip)
  }

  /** Whether `b` is on the path. */
  predicate On(v: seq<BlockIndex?>, b: BlockIndex) { b.nHeight < |v| && v[b.nHeight] == b }

  lemma OnIsAncestor(v: seq<BlockIndex?>, b: BlockIndex)
    requires IsPath(v) && v != []
    ensures On(v, b) <==> IsAncestor(b, v[|v| - 1])
  {
  }

  /** The deepest block that `b` and the path have in common. */
  ghost predicate IsFork(v: seq<BlockIndex?>, b: BlockIndex, r: BlockIndex?)
    requires b.Rooted()
  {
    && (r != null ==> On(v, r) && IsAncestor(r, b))
    && forall h :: (if r == null then 0 else r.nHeight + 1) <= h < |v| && h <= b.nHeight ==> v[h] != Ancestor(b, h)
  }

  /** The height of an entry of a locator: one further back each for ten entries, then twice as far back each time. */
  function LocatorHeight(height: nat, i: nat): (h: nat)
    ensures h <= height
  {
    Max(0, height - if i <= 10 then i else 9 + Pow2(i - 10))
  }

  predicate Falling(blocks: seq<BlockIndex>) {
    forall i, j :: 0 <= i < j < |blocks| ==> blocks[i].nHeight > blocks[j].nHeight
  }

  /** Ancestors at these heights, down to genesis. */
  ghost predicate IsLocator(blocks: seq<BlockIndex>, start: BlockIndex)
    requires start.Rooted()
  {
    && blocks != [] && blocks[0] == start && blocks[|blocks| - 1].nHeight == 0
    && (forall i :: 0 <= i < |blocks| ==> IsAncestor(blocks[i], start))
    && (forall i :: 0 <= i < |blocks| ==> blocks[i].nHeight == LocatorHeight(start.nHeight, i))
    && Falling(blocks)
    && (|blocks| <= 12 || Pow2(|blocks| - 12) < start.nHeight)
  }

  /** The first block of a locator that is known and on the path. */
  function FirstOn(v: seq<BlockIndex?>, index: map<nat, BlockIndex>, locator: seq<nat>): BlockIndex? {
    if locator == [] then if v == [] then null else v[0]
    else if locator[0] in index && On(v, index[locator[0]]) then index[locator[0]]
    else FirstOn(v, index, locator[1..])
  }

  class Chain {
    var vChain: seq<BlockIndex?>

    ghost predicate Valid()
      reads this
    {
      IsPath(vChain)
    }

    constructor ()
      ensures vChain == []
    {
      vChain := [];
    }

    function At(height: int): BlockIndex?
      reads this
    {
      if height < 0 || height >= |vChain| then null else vChain[height]
    }

    function Height(): int
      reads this
    {
      |vChain| - 1
    }

    function Tip(): BlockIndex?
      reads this
    {
      if |vChain| > 0 then vChain[|vChain| - 1] else null
    }

    function Genesis(): BlockIndex?
      reads this
    {
      if |vChain| > 0 then vChain[0] else null
    }

    predicate Contains(b: BlockIndex)
      reads this
      ensures Contains(b) <==> On(vChain, b)
    {
      At(b.nHeight) == b
    }

    function Next(b: BlockIndex): BlockIndex?
      reads this
    {
      if Contains(b) then At(b.nHeight + 1) else null
    }

    /** Makes `pindex` the tip.  Stops as soon as it meets the old chain. */
    method SetTip(pindex: BlockIndex?)
      requires Valid() && (pindex != null ==> pindex.Rooted())
      modifies this
      ensures Valid() && vChain == if pindex == null then [] else PathTo(pindex)
    {
      hide GetSkipHeight, BlockIndex.Rooted, Ancestor;
      if pindex == null {
        vChain := [];
        return;
      }
      ghost var old_ := vChain;
      if |vChain| > pindex.nHeight + 1 {
        vChain := vChain[..pindex.nHeight + 1];
      } else {
        vChain := vChain + seq(pindex.nHeight + 1 - |vChain|, i => null);
      }
      ghost var was := vChain;
      var walk: BlockIndex? := pindex;
      Itself(pindex);
      while walk != null && vChain[walk.nHeight] != walk
        invariant walk != null ==> walk.Rooted() && IsAncestor(walk, pindex)
        invariant |vChain| == pindex.nHeight + 1
        invariant forall i :: 0 <= i < |vChain| ==>
                    vChain[i] == if walk == null || i > walk.nHeight then Ancestor(pindex, i) else was[i]
        decreases if walk == null then 0 else walk.nHeight + 1
      {
        ParentAt(pindex, walk.nHeight);
        vChain := vChain[walk.nHeight := walk];
        walk := walk.pprev;
      }
      if walk != null {
        MeetsOldChain(old_, walk, pindex);
      }
      assert vChain == PathTo(pindex);
    }

    /** The deepest block in common with the chain. */
    method FindFork(pindex: BlockIndex) returns (r: BlockIndex?)
      requires Valid() && pindex.Rooted()
      ensures IsFork(vChain, pindex, r)
    {
      hide GetSkipHeight, PathTo;
      r := pindex;
      if r.nHeight > Height() {
        r := r.GetAncestor(Height());
      }
      while r != null && !Contains(r)
        invariant r != null ==> r.Rooted() && IsAncestor(r, pindex)
        invariant forall h :: (if r == null then 0 else r.nHeight + 1) <= h < |vChain| && h <= pindex.nHeight ==>
                  vChain[h] != Ancestor(pindex, h)
        decreases if r == null then 0 else r.nHeight + 1
      {
        ParentOfAncestor(r, pindex);
        r := r.pprev;
      }
    }

    /** Hashes of ever more distant ancestors of a block, or of the tip, down to genesis. */
    method GetLocator(b: BlockIndex?) returns (vHave: seq<nat>, ghost blocks: seq<BlockIndex>)
      requires Valid() && (b != null ==> b.Rooted())
      ensures |vHave| == |blocks| && forall i :: 0 <= i < |vHave| ==> vHave[i] == blocks[i].hash
      ensures var start := if b == null then Tip() else b;
              if start == null then blocks == [] else IsLocator(blocks, start)
      ensures var start := if b == null then Tip() else b;
              start != null ==>
                && start.Rooted() && vHave != [] && LocatorHeight(start.nHeight, |vHave| - 1) == 0
                && (forall i :: 0 <= i < |vHave| - 1 ==> LocatorHeight(start.nHeight, i) > 0)
                && forall i :: 0 <= i < |vHave| ==> vHave[i] == Ancestor(start, LocatorHeight(start.nHeight, i)).hash
    {
      hide IsLocator, LocatorSoFar, IsPath, LocatorHeight, GetSkipHeight;
      var step: nat := 1;
      vHave, blocks := [], [];
      var start: BlockIndex? := b;
      if start == null {
        start := Tip();
      }
      var pindex: BlockIndex? := start;
      if start == null {
        return;
      }
      TipIsRooted(vChain);
      LocatorStarts(start);
      while pindex != null
        invariant pindex != null && pindex.Rooted()
        invariant |vHave| == |blocks| && forall i :: 0 <= i < |vHave| ==> vHave[i] == blocks[i].hash
        invariant LocatorSoFar(blocks, start, pindex, step)
        decreases pindex.nHeight
      {
        ghost var height := if pindex.nHeight > step then pindex.nHeight - step else 0;
        if pindex.nHeight > 0 {
          StepIsPositive(blocks, start, pindex, step);
          LocatorNext(blocks, start, pindex, step, Ancestor(pindex, height));
        } else {
          LocatorDone(blocks, start, pindex, step);
          LocatorEntries(blocks + [pindex], start);
        }
        vHave := vHave + [pindex.hash];
        blocks := blocks + [pindex];
        if pindex.nHeight == 0 {
          break;
        }
        var nHeight := if pindex.nHeight - step > 0 then pindex.nHeight - step else 0;
        if Contains(pindex) {
          OnHasAncestors(vChain, pindex, nHeight);
          pindex := At(nHeight);
        } else {
          pindex := pindex.GetAncestor(nHeight);
        }
        if |vHave| > 10 {
          step := step * 2;
        }
      }
    }
  }

  lemma TipIsRooted(v: seq<BlockIndex?>)
    requires IsPath(v)
    ensures v != [] ==> v[|v| - 1] != null && v[|v| - 1].Rooted()
  {
  }

  lemma OnHasAncestors(v: seq<BlockIndex?>, b: BlockIndex, h: nat)
    requires IsPath(v) && On(v, b) && b.Rooted() && h <= b.nHeight
    ensures v[h] == Ancestor(b, h)
  {
    AncestorOfAncestor(v[|v| - 1], b.nHeight, h);
  }

  lemma LocatorStarts(start: BlockIndex)
    requires start.Rooted()
    ensures LocatorSoFar([], start, start, 1)
  {
  }

  lemma StepIsPositive(blocks: seq<BlockIndex>, start: BlockIndex, next: BlockIndex, step: nat)
    requires start.Rooted() && LocatorSoFar(blocks, start, next, step)
    ensures step > 0
  {
  }

  /** The locator while it is made: `next` is to be added, and the step after it is `step`. */
  ghost predicate LocatorSoFar(blocks: seq<BlockIndex>, start: BlockIndex, next: BlockIndex, step: nat)
    requires start.Rooted()
  {
    && IsAncestor(next, start) && (if blocks == [] then next == start else blocks[0] == start)
    && (forall i :: 0 <= i < |blocks| ==> IsAncestor(blocks[i], start) && blocks[i].nHeight > next.nHeight)
    && (forall i :: 0 <= i < |blocks| ==> blocks[i].nHeight == LocatorHeight(start.nHeight, i))
    && next.nHeight == LocatorHeight(start.nHeight, |blocks|)
    && Falling(blocks)
    && step == (if |blocks| <= 10 then 1 else Pow2(|blocks| - 10))
    && (|blocks| <= 11 ==> next.nHeight + |blocks| == start.nHeight)
    && (|blocks| >= 11 ==> next.nHeight == 0 || next.nHeight + Pow2(|blocks| - 10) + 9 == start.nHeight)
    && (|blocks| >= 12 ==> Pow2(|blocks| - 11) < start.nHeight)
  }

  lemma LocatorNext(blocks: seq<BlockIndex>, start: BlockIndex, p: BlockIndex, step: nat, next: BlockIndex)
    requires start.Rooted() && p.Rooted() && LocatorSoFar(blocks, start, p, step) && p.nHeight > 0
    requires next == Ancestor(p, if p.nHeight > step then p.nHeight - step else 0)
    ensures LocatorSoFar(blocks + [p], start, next, if |blocks| + 1 > 10 then step * 2 else step)
  {
    hide GetSkipHeight, LocatorHeight, Pow2, Max, Falling;
    FallsFurther(blocks, p);
    AncestorsAreTransitive(next, p, start);
    NextHeight(start.nHeight, |blocks|);
  }

  lemma FallsFurther(blocks: seq<BlockIndex>, p: BlockIndex)
    requires Falling(blocks) && forall i :: 0 <= i < |blocks| ==> blocks[i].nHeight > p.nHeight
    ensures Falling(blocks + [p])
  {
  }

  lemma NextHeight(height: nat, i: nat)
    ensures LocatorHeight(height, i + 1) ==
            Max(0, LocatorHeight(height, i) - if i <= 10 then 1 else Pow2(i - 10))
    ensures Pow2(i + 1) == 2 * Pow2(i) && (i >= 10 ==> Pow2(i - 9) == 2 * Pow2(i - 10)) && Pow2(1) == 2
    ensures forall a :: Max(0, a) == if 0 < a then a else 0
  {
    assert i >= 10 ==> Pow2(i - 9) == 2 * Pow2(i - 10);
    assert Pow2(1) == 2 && Pow2(0) == 1;
    hide Pow2;
  }

  lemma LocatorDone(blocks: seq<BlockIndex>, start: BlockIndex, p: BlockIndex, step: nat)
    requires start.Rooted() && p.Rooted() && LocatorSoFar(blocks, start, p, step) && p.nHeight == 0
    ensures IsLocator(blocks + [p], start)
  {
    hide GetSkipHeight, LocatorHeight, Falling, Pow2;
    FallsFurther(blocks, p);
  }

  lemma LocatorEntries(blocks: seq<BlockIndex>, start: BlockIndex)
    requires start.Rooted() && IsLocator(blocks, start)
    ensures blocks != [] && LocatorHeight(start.nHeight, |blocks| - 1) == 0
    ensures forall i :: 0 <= i < |blocks| - 1 ==> LocatorHeight(start.nHeight, i) > 0
    ensures forall i :: 0 <= i < |blocks| ==> blocks[i] == Ancestor(start, LocatorHeight(start.nHeight, i))
  {
    hide GetSkipHeight;
    assert forall i :: 0 <= i < |blocks| - 1 ==> blocks[i].nHeight > blocks[|blocks| - 1].nHeight;
  }

  lemma ParentOfAncestor(a: BlockIndex, b: BlockIndex)
    requires b.Rooted() && IsAncestor(a, b)
    ensures a.pprev == null ==> a.nHeight == 0
    ensures a.pprev != null ==> a.pprev.nHeight == a.nHeight - 1 && IsAncestor(a.pprev, b)
  {
    if a.pprev != null {
      AncestorOfAncestor(b, a.nHeight, a.pprev.nHeight);
    }
  }

  lemma Itself(b: BlockIndex)
    requires b.Rooted()
    ensures Ancestor(b, b.nHeight) == b
  {
  }

  lemma ParentAt(b: BlockIndex, h: nat)
    requires b.Rooted() && h <= b.nHeight
    ensures Ancestor(b, h).pprev == if h == 0 then null else Ancestor(b, h - 1)
  {
    hide GetSkipHeight;
    ParentOfAncestor(Ancestor(b, h), b);
  }

  /** Below a block of the old chain, the old chain already is what it should be. */
  lemma MeetsOldChain(v: seq<BlockIndex?>, walk: BlockIndex, pindex: BlockIndex)
    requires IsPath(v) && pindex.Rooted() && IsAncestor(walk, pindex) && On(v, walk)
    ensures forall i :: 0 <= i <= walk.nHeight ==> v[i] == Ancestor(pindex, i)
  {
    forall i | 0 <= i <= walk.nHeight
      ensures v[i] == Ancestor(pindex, i)
    {
      AncestorOfAncestor(pindex, walk.nHeight, i);
      AncestorOfAncestor(v[|v| - 1], walk.nHeight, i);
    }
  }

  /** The first block a peer has of the active chain. */
  method FindForkInGlobalIndex(chain: Chain, index: map<nat, BlockIndex>, locator: seq<nat>) returns (r: BlockIndex?)
    ensures r == FirstOn(chain.vChain, index, locator)
  {
    for i := 0 to |locator|
      invariant FirstOn(chain.vChain, index, locator) == FirstOn(chain.vChain, index, locator[i..])
    {
      if locator[i] in index {
        if chain.Contains(index[locator[i]]) {
          return index[locator[i]];
        }
      }
      assert locator[i..][1..] == locator[i + 1..];
    }
    r := chain.Genesis();
  }

  /** A locator leads to its first entry at or below the fork: to the block itself if it is on the chain. */
  lemma {:induction false} LocatorLeadsToFork(v: seq<BlockIndex?>, index: map<nat, BlockIndex>, locator: seq<nat>,
                                              blocks: seq<BlockIndex>, start: BlockIndex, fork: BlockIndex, k: nat)
    requires IsPath(v) && v != [] && start.Rooted() && IsLocator(blocks, start) && IsFork(v, start, fork)
    requires |locator| == |blocks| && forall i :: 0 <= i < |blocks| ==>
             locator[i] in index && index[locator[i]] == blocks[i]
    requires k < |blocks| && forall i :: 0 <= i < k ==> blocks[i].nHeight > fork.nHeight
    ensures var r := FirstOn(v, index, locator[k..]);
            && r != null && r in blocks && IsAncestor(r, fork)
            && forall i :: 0 <= i < |blocks| && blocks[i].nHeight <= fork.nHeight ==> blocks[i].nHeight <= r.nHeight
    decreases |blocks| - k
  {
    var b := blocks[k];
    assert locator[k..][0] == locator[k] && locator[k..][1..] == locator[k + 1..];
    if b.nHeight <= fork.nHeight {
      AncestorsAreLinear(b, fork, start);
      OnIsAncestor(v, fork);
      AncestorsAreTransitive(b, fork, v[|v| - 1]);
      OnIsAncestor(v, b);
    } else {
      assert !On(v, b);
      assert blocks[|blocks| - 1].nHeight == 0;
      LocatorLeadsToFork(v, index, locator, blocks, start, fork, k + 1);
    }
  }

  /** The entry found lies no further below the fork than the fork lies below the start, by eleven blocks less. */
  lemma LocatorIsDense(v: seq<BlockIndex?>, index: map<nat, BlockIndex>, locator: seq<nat>,
                       blocks: seq<BlockIndex>, start: BlockIndex, fork: BlockIndex)
    requires IsPath(v) && v != [] && start.Rooted() && IsLocator(blocks, start) && IsFork(v, start, fork)
    requires |locator| == |blocks| && forall i :: 0 <= i < |blocks| ==>
             locator[i] in index && index[locator[i]] == blocks[i]
    ensures var r := FirstOn(v, index, locator);
            r != null && 0 <= fork.nHeight - r.nHeight <= Max(0, start.nHeight - fork.nHeight - 11)
  {
    hide GetSkipHeight;
    assert locator[0..] == locator;
    LocatorLeadsToFork(v, index, locator, blocks, start, fork, 0);
    var r := FirstOn(v, index, locator);
    var k :| 0 <= k < |blocks| && blocks[k] == r;
    if k > 0 {
      assert blocks[k - 1].nHeight > r.nHeight;
      GapAt(start.nHeight, fork.nHeight, k);
    }
  }

  lemma GapAt(height: nat, fork: nat, k: nat)
    requires k > 0 && LocatorHeight(height, k) <= fork < LocatorHeight(height, k - 1)
    ensures fork - LocatorHeight(height, k) <= Max(0, height - fork - 11)
  {
    assert Pow2(1) == 2;
    assert k > 10 ==> Pow2(k - 10) == 2 * Pow2(k - 11);
    hide Pow2;
  }

  /** In particular, the locator of a block on the chain leads back to that block. */
  lemma LocatorOfChainBlock(v: seq<BlockIndex?>, index: map<nat, BlockIndex>, locator: seq<nat>,
                            blocks: seq<BlockIndex>, start: BlockIndex)
    requires IsPath(v) && start.Rooted() && On(v, start) && IsLocator(blocks, start)
    requires |locator| == |blocks| && forall i :: 0 <= i < |blocks| ==>
             locator[i] in index && index[locator[i]] == blocks[i]
    ensures FirstOn(v, index, locator) == start
  {
    assert IsFork(v, start, start);
    assert locator[0..] == locator;
    LocatorLeadsToFork(v, index, locator, blocks, start, start, 0);
    assert blocks[0] == start;
  }
}
