/** The program's own check of the block tree: the conditions it asserts of every entry, walking from genesis. */
module BlockTreeCheck {
  import opened BlockIndexes
  import opened ActiveChain
  import opened BlockTrees
  import opened BlockLinking
  import opened BestChainSpec

  /** How far an entry is from the root of the tree. */
  ghost function Depth(b: BlockIndex): nat
    requires b.Rooted()
    decreases b.nHeight
  {
    if b.pprev == null then 0 else Depth(b.pprev) + 1
  }

  /** The blocks, other than genesis, that have not been validated up to a level. */
  function NotValidTo(s: Tree, level: nat): set<BlockIndex> {
    set b | b in s.info && b.pprev != null && s.info[b].validity < level
  }

  /** Whether the block and all blocks below it are validated up to a level. */
  ghost predicate ValidBelow(s: Tree, level: nat, b: BlockIndex)
    requires b.Rooted()
  {
    !Blocked(NotValidTo(s, level), b)
  }

  /** What the check asserts of the place of an entry. */
  ghost predicate PlacePasses(s: Tree, b: BlockIndex)
    requires b.Rooted() && s.chain != []
  {
    && (b.pprev == null ==> b == s.genesis && b == s.chain[0])
    && b.nHeight == Depth(b)
    && (b.pprev == null || b.nChainWork >= b.pprev.nChainWork)
    && (b.nHeight < 2 || (b.pskip != null && b.pskip.nHeight < b.nHeight))
  }

  /** What it asserts of the status and the counts. */
  ghost predicate StatusPasses(s: Tree, b: BlockIndex)
    requires b.Rooted()
  {
    var i := s.Of(b);
    && (i.haveData <==> i.nTx > 0) && (i.validity >= VALID_TRANSACTIONS <==> i.nTx > 0)
    && (i.nChainTx == 0 ==> i.nSequenceId == 0)
    && (Blocked(NoData(s), b) <==> i.nChainTx == 0)
    && ValidBelow(s, VALID_TREE, b)
    && (i.validity >= VALID_CHAIN ==> ValidBelow(s, VALID_CHAIN, b))
    && (i.validity >= VALID_SCRIPTS ==> ValidBelow(s, VALID_SCRIPTS, b))
    && (!Blocked(FoundInvalid(s), b) ==> !i.Failed())
  }

  /** What it asserts of being a candidate, and of waiting for an ancestor. */
  ghost predicate ListsPass(s: Tree, b: BlockIndex)
    requires b.Rooted()
  {
    && (if !Below(s, b, s.Tip()) && !Blocked(NoData(s), b)
        then !Blocked(FoundInvalid(s), b) ==> b in s.candidates
        else b !in s.candidates)
    && (if b.pprev != null && s.Of(b).haveData && Blocked(NoData(s), b)
        then !Blocked(FoundInvalid(s), b) ==> s.Waits(b)
        else !s.Waits(b))
  }

  /** Without an active chain there may be one entry only. */
  ghost predicate CheckBlockIndex(s: Tree)
    requires IsTree(s.info.Keys)
  {
    if s.chain == [] then |s.info| <= 1
    else
      && s.genesis in s.info && s.genesis.pprev == null
      && forall b :: b in s.info ==> PlacePasses(s, b) && StatusPasses(s, b) && ListsPass(s, b)
  }

  // ---------- The check passes ----------

  lemma {:induction false} DepthIsHeight(b: BlockIndex)
    requires b.Rooted()
    ensures Depth(b) == b.nHeight
    decreases b.nHeight
  {
    hide GetSkipHeight;
    if b.pprev != null {
      DepthIsHeight(b.pprev);
    }
  }

  /** Blocks are linked if and only if no data are missing on their way to genesis. */
  lemma {:induction false} LinkedIffNothingMissing(s: Tree, b: BlockIndex)
    requires TreeOk(s) && LinkOk(s) && b in s.info
    ensures s.Linked(b) <==> !Blocked(NoData(s), b)
    decreases b.nHeight
  {
    hide GetSkipHeight, UnlinkedOk, SequenceOk;
    ParentIsNode(s.info.Keys, b);
    if b.pprev != null {
      LinkedIffNothingMissing(s, b.pprev);
    }
  }

  /** Blocks have been validated no further than those before them. */
  lemma {:induction false} ValidatedInOrder(s: Tree, level: nat, b: BlockIndex)
    requires TreeOk(s) && ValidityOk(s) && b in s.info && VALID_CHAIN <= level <= VALID_SCRIPTS
    requires b.pprev == null || s.info[b].validity >= level
    ensures ValidBelow(s, level, b)
    decreases b.nHeight
  {
    hide GetSkipHeight;
    ParentIsNode(s.info.Keys, b);
    if b.pprev != null {
      ValidatedInOrder(s, level, b.pprev);
    }
  }

  lemma {:induction false} HeadersAreValidBelow(s: Tree, b: BlockIndex)
    requires TreeOk(s) && ValidityOk(s) && b in s.info
    ensures ValidBelow(s, VALID_TREE, b)
    decreases b.nHeight
  {
    hide GetSkipHeight;
    ParentIsNode(s.info.Keys, b);
    if b.pprev != null {
      HeadersAreValidBelow(s, b.pprev);
    }
  }

  lemma PlaceIsRight(s: Tree, b: BlockIndex)
    requires TreeOk(s) && ChainOk(s) && s.chain != [] && b in s.info
    ensures PlacePasses(s, b) && s.genesis in s.info && s.genesis.pprev == null
  {
    hide GetSkipHeight, Blocked;
    DepthIsHeight(b);
    SkipsBack(b.nHeight);
    assert s.chain[0] == Ancestor(s.Tip(), 0);
  }

  lemma StatusIsRight(s: Tree, b: BlockIndex)
    requires TreeOk(s) && LinkOk(s) && StatusOk(s) && b in s.info
    ensures StatusPasses(s, b)
  {
    hide GetSkipHeight, Blocked, UnlinkedOk, ChainTxOk, MarksOk, TreeOk;
    LinkedIffNothingMissing(s, b);
    FailedIsBelowInvalid(s, b);
    BlockedItself(s, b);
    HeadersAreValidBelow(s, b);
    if s.info[b].validity >= VALID_CHAIN {
      ValidatedInOrder(s, VALID_CHAIN, b);
    }
    if s.info[b].validity >= VALID_SCRIPTS {
      ValidatedInOrder(s, VALID_SCRIPTS, b);
    }
  }

  lemma BlockedItself(s: Tree, b: BlockIndex)
    requires TreeOk(s) && b in s.info
    ensures s.info[b].Failed() ==> Blocked(s.Failed(), b)
  {
  }

  lemma ListsAreRight(s: Tree, b: BlockIndex)
    requires Valid(s) && b in s.info
    ensures ListsPass(s, b)
  {
    hide GetSkipHeight, Blocked, DataOk, ChainTxOk, SequenceOk, StatusOk, Less, IsPath, PlacesOk;
    LinkedIffNothingMissing(s, b);
    FailedIsBelowInvalid(s, b);
  }

  /** Of a valid tree, the check finds nothing wrong, unless it has several entries but no active chain. */
  lemma ValidPasses(s: Tree)
    requires Valid(s)
    ensures CheckBlockIndex(s) <==> s.chain != [] || |s.info| <= 1
  {
    hide GetSkipHeight, PlacePasses, StatusPasses, ListsPass, LinkOk, ChainOk, StatusOk, CandidatesLinked,
      CandidatesComplete, PlacesOk;
    if s.chain != [] {
      forall b | b in s.info
        ensures PlacePasses(s, b) && StatusPasses(s, b) && ListsPass(s, b)
      {
        PlaceIsRight(s, b);
        StatusIsRight(s, b);
        ListsAreRight(s, b);
      }
      TipIsThere(s);
      PlaceIsRight(s, s.Tip());
    }
  }

  lemma TipIsThere(s: Tree)
    requires TreeOk(s) && ChainOk(s) && s.chain != []
    ensures s.Tip() != null && s.Tip() in s.info
  {
    hide GetSkipHeight, Blocked;
  }
}
