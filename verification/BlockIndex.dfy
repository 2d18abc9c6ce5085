/** Entries of the block tree and the skip list that leads from an entry to its ancestors. */
module BlockIndexes {
  import opened Common

  // ---------- Heights to skip to ----------

  /** Bitwise and. */
  function And(a: nat, b: nat): nat {
    if a == 0 || b == 0 then 0 else (if a % 2 == 1 && b % 2 == 1 then 1 else 0) + 2 * And(a / 2, b / 2)
  }

  function InvertLowestOne(n: nat): nat { if n == 0 then 0 else And(n, n - 1) }

  function GetSkipHeight(height: nat): nat {
    if height < 2 then 0
    else if height % 2 == 1 then InvertLowestOne(InvertLowestOne(height - 1)) + 1
    else InvertLowestOne(height)
  }

  lemma {:induction false} AndIsNotMore(a: nat, b: nat)
    ensures And(a, b) <= a && And(a, b) <= b
  {
    if a > 0 && b > 0 {
      AndIsNotMore(a / 2, b / 2);
    }
  }

  lemma {:induction false} AndSelf(a: nat)
    ensures And(a, a) == a
  {
    if a > 0 {
      AndSelf(a / 2);
    }
  }

  /** The lowest one of a number ending in `k` zeros stands for a power of two; it is what is taken off. */
  lemma {:induction false} InvertsLowestOne(odd: nat, k: nat)
    ensures InvertLowestOne((2 * odd + 1) * Pow2(k)) == 2 * odd * Pow2(k)
  {
    if k == 0 {
      AndSelf(odd);
    } else {
      var m := (2 * odd + 1) * Pow2(k - 1);
      Doubled(2 * odd + 1, Pow2(k - 1));
      Doubled(2 * odd, Pow2(k - 1));
      InvertsLowestOne(odd, k - 1);
      InvertEven(m);
    }
  }

  lemma Doubled(x: nat, p: nat)
    ensures x * (2 * p) == 2 * (x * p) && (x > 0 && p > 0 ==> x * p > 0)
  {
  }

  lemma InvertEven(m: nat)
    requires m > 0
    ensures InvertLowestOne(2 * m) == 2 * InvertLowestOne(m)
  {
    assert (2 * m - 1) / 2 == m - 1;
  }

  lemma SkipsBack(height: nat)
    ensures height > 0 ==> GetSkipHeight(height) < height
  {
    if height >= 2 {
      AndIsNotMore(height, height - 1);
      AndIsNotMore(height - 1, height - 2);
      var m := InvertLowestOne(height - 1);
      if m > 0 {
        AndIsNotMore(m, m - 1);
      }
    }
  }

  /** An even height skips to where its lowest one is taken off. */
  lemma EvenSkipsTo(odd: nat, k: nat)
    requires k > 0
    ensures GetSkipHeight((2 * odd + 1) * Pow2(k)) == 2 * odd * Pow2(k)
  {
    var n := (2 * odd + 1) * Pow2(k - 1);
    Doubled(2 * odd + 1, Pow2(k - 1));
    InvertsLowestOne(odd, k);
    EvenHeight(n);
  }

  lemma EvenHeight(n: nat)
    requires n > 0
    ensures GetSkipHeight(2 * n) == InvertLowestOne(2 * n)
  {
    hide InvertLowestOne;
  }

  /** An odd height skips to just above where the two lowest ones of the height below it are taken off. */
  lemma OddSkipsTo(odd: nat, k: nat, odd2: nat, k2: nat)
    requires k > 0 && 2 * odd * Pow2(k) == (2 * odd2 + 1) * Pow2(k2)
    ensures GetSkipHeight((2 * odd + 1) * Pow2(k) + 1) == 2 * odd2 * Pow2(k2) + 1
  {
    var n := (2 * odd + 1) * Pow2(k - 1);
    Doubled(2 * odd + 1, Pow2(k - 1));
    InvertsLowestOne(odd, k);
    InvertsLowestOne(odd2, k2);
    OddHeight(n);
  }

  lemma OddHeight(n: nat)
    requires n > 0
    ensures GetSkipHeight(2 * n + 1) == InvertLowestOne(InvertLowestOne(2 * n)) + 1
  {
    hide InvertLowestOne;
  }

  // ---------- Entries ----------

  /** How far a block has been validated. */
  const VALID_TREE: nat := 2
  const VALID_TRANSACTIONS: nat := 3
  const VALID_CHAIN: nat := 4
  const VALID_SCRIPTS: nat := 5

  class BlockIndex {
    const hash: nat
    const pprev: BlockIndex?
    const pskip: BlockIndex?
    const nHeight: nat
    const nChainWork: nat
    /** Where the entry is in memory, which decides between entries that are otherwise equal. */
    const address: nat
    // The bits of nStatus.
    var validity: nat
    var haveData: bool
    var failedValid: bool
    var failedChild: bool
    var nTx: nat
    var nChainTx: nat
    var nSequenceId: nat

    /** The entry and its ancestors form a chain with ever more work, and skip pointers lead where they should. */
    ghost predicate Rooted()
      decreases nHeight, 0
    {
      if pprev == null then nHeight == 0 && pskip == null && nChainWork > 0
      else
        && nHeight == pprev.nHeight + 1 && pprev.Rooted() && nChainWork > pprev.nChainWork
        && (SkipsBack(nHeight); pskip == Ancestor(pprev, GetSkipHeight(nHeight)))
    }

    constructor (hash: nat, prev: BlockIndex?, proof: nat, address: nat)
      requires prev != null ==> prev.Rooted()
      requires proof > 0
      ensures Rooted() && this.hash == hash && pprev == prev && this.address == address
      ensures nChainWork == proof + if prev == null then 0 else prev.nChainWork
      ensures validity == VALID_TREE && !haveData && !failedValid && !failedChild && nTx == nChainTx == nSequenceId == 0
    {
      this.hash, pprev, this.address := hash, prev, address;
      validity, haveData, failedValid, failedChild, nTx, nChainTx, nSequenceId := VALID_TREE, false, false, false, 0, 0,
        0;
      if prev == null {
        nHeight, nChainWork, pskip := 0, proof, null;
      } else {
        nHeight, nChainWork := prev.nHeight + 1, prev.nChainWork + proof;
        SkipsBack(prev.nHeight + 1);
        var skip := prev.GetAncestor(GetSkipHeight(prev.nHeight + 1));
        pskip := skip;
      }
    }

    predicate Failed()
      reads this
    {
      failedValid || failedChild
    }

    predicate IsValid(upTo: nat)
      reads this
    {
      !Failed() && validity >= upTo
    }

    method RaiseValidity(upTo: nat) returns (raised: bool)
      modifies this`validity
      ensures raised <==> !Failed() && old(validity) < upTo
      ensures validity == if raised then upTo else old(validity)
    {
      if failedValid || failedChild {
        return false;
      }
      if validity < upTo {
        validity := upTo;
        return true;
      }
      return false;
    }

    /** The ancestor at a height, by parents or skip pointers, whichever is shorter. */
    method GetAncestor(height: int) returns (r: BlockIndex?)
      requires Rooted()
      ensures r == if 0 <= height <= nHeight then Ancestor(this, height) else null
    {
      if height > nHeight || height < 0 {
        return null;
      }
      var walk: BlockIndex := this;
      var heightWalk := nHeight;
      while heightWalk > height
        invariant walk.Rooted() && height <= heightWalk == walk.nHeight
        invariant Ancestor(walk, height) == Ancestor(this, height)
        decreases heightWalk
      {
        var heightSkip := GetSkipHeight(heightWalk);
        var heightSkipPrev := GetSkipHeight(heightWalk - 1);
        SkipsBack(heightWalk);
        if heightSkip == height ||
          (heightSkip > height && !(heightSkipPrev < heightSkip - 2 && heightSkipPrev >= height)) {
          AncestorOfAncestor(walk.pprev, heightSkip, height);
          walk := walk.pskip;
          heightWalk := heightSkip;
        } else {
          walk := walk.pprev;
          heightWalk := heightWalk - 1;
        }
      }
      r := walk;
    }
  }

  // ---------- Ancestors ----------

  /** Following parents down to a height. */
  ghost function Ancestor(b: BlockIndex, height: nat): (r: BlockIndex)
    requires b.Rooted() && height <= b.nHeight
    ensures r.nHeight == height && r.Rooted()
    decreases b.nHeight, 1
  {
    if height == b.nHeight then b else Ancestor(b.pprev, height)
  }

  lemma {:induction false} AncestorOfAncestor(b: BlockIndex, h: nat, k: nat)
    requires b.Rooted() && k <= h <= b.nHeight
    ensures Ancestor(Ancestor(b, h), k) == Ancestor(b, k)
    decreases b.nHeight
  {
    if h < b.nHeight {
      AncestorOfAncestor(b.pprev, h, k);
    }
  }

  /** `a` is `b` or one of its ancestors. */
  ghost predicate IsAncestor(a: BlockIndex, b: BlockIndex)
    requires b.Rooted()
  {
    a.nHeight <= b.nHeight && Ancestor(b, a.nHeight) == a
  }

  lemma {:induction false} WorkGrows(a: BlockIndex, b: BlockIndex)
    requires b.Rooted() && IsAncestor(a, b)
    ensures a == b || a.nChainWork < b.nChainWork
    decreases b.nHeight
  {
    if a != b {
      WorkGrows(a, b.pprev);
    }
  }

  lemma AncestorsAreTransitive(a: BlockIndex, b: BlockIndex, c: BlockIndex)
    requires c.Rooted() && IsAncestor(b, c) && IsAncestor(a, b)
    ensures IsAncestor(a, c)
  {
    AncestorOfAncestor(c, b.nHeight, a.nHeight);
  }

  /** Ancestors of the same block are ancestors of one another. */
  lemma AncestorsAreLinear(a: BlockIndex, b: BlockIndex, c: BlockIndex)
    requires c.Rooted() && IsAncestor(a, c) && IsAncestor(b, c) && a.nHeight <= b.nHeight
    ensures IsAncestor(a, b)
  {
    AncestorOfAncestor(c, b.nHeight, a.nHeight);
  }

  // ---------- Block trees ----------

  /** A set of entries that has the ancestors of its members. */
  ghost predicate IsTree(nodes: set<BlockIndex>) {
    && (forall b :: b in nodes ==> b.Rooted())
    && forall b, h {:trigger Ancestor(b, h)} :: b in nodes && 0 <= h <= b.nHeight ==> Ancestor(b, h) in nodes
  }

  lemma ParentIsNode(nodes: set<BlockIndex>, b: BlockIndex)
    requires IsTree(nodes) && b in nodes
    ensures b.pprev != null ==> b.pprev in nodes
  {
    if b.pprev != null {
      assert Ancestor(b, b.nHeight - 1) == b.pprev;
    }
  }

  /** A tree stays one when a child of one of its members, or another root, is added. */
  lemma TreeGrows(nodes: set<BlockIndex>, b: BlockIndex)
    requires IsTree(nodes) && b.Rooted() && (b.pprev != null ==> b.pprev in nodes)
    ensures IsTree(nodes + {b})
  {
  }
}
