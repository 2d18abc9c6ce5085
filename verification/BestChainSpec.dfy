/** What connecting and disconnecting blocks, and finding out that some are invalid, does to the block tree. */
module BestChainSpec {
  import opened BlockIndexes
  import opened ActiveChain
  import opened BlockTrees

  // ---------- Invariants while the tip moves ----------

  /** The block tree while the tip moves: `best` is the best tip there has been so far. */
  ghost predicate Ready(s: Tree, best: BlockIndex?) {
    && TreeOk(s) && PlacesOk(s) && LinkOk(s) && ChainOk(s)
    && CandidatesLinked(s, best) && CandidatesComplete(s, best) && StatusOk(s)
    && (s.Tip() != null ==> best != null && !Less(s, best, s.Tip()))
    && BestOk(s, best)
  }

  /** The best tip so far remains a candidate unless it, or an ancestor, has been found invalid. */
  ghost predicate BestOk(s: Tree, best: BlockIndex?)
    requires IsTree(s.info.Keys)
  {
    best != null ==> best in s.info && (best in s.candidates || Blocked(s.Failed(), best))
  }

  lemma ValidIsReady(s: Tree)
    requires Valid(s)
    ensures Ready(s, s.Tip())
  {
  }

  /** Back at the best tip so far, all is as it was. */
  lemma ReadyIsValid(s: Tree)
    requires Ready(s, s.Tip())
    ensures Valid(s)
  {
  }

  /** If the tip is a candidate, it is the best tip so far. */
  lemma TipIsBest(s: Tree, best: BlockIndex?)
    requires Ready(s, best) && s.Tip() != null && s.Tip() in s.candidates
    ensures s.Tip() == best
  {
    hide GetSkipHeight, Blocked, IsPath, TreeOk, LinkOk, ChainOk, CandidatesComplete;
    if s.Tip() != best {
      LessIsTotal(s, s.Tip(), best);
    }
  }

  // ---------- Disconnecting ----------

  function WithTip(s: Tree, v: seq<BlockIndex?>): Tree { s.(chain := v) }

  lemma LinkedUp(s: Tree, b: BlockIndex)
    requires TreeOk(s) && LinkOk(s) && b in s.info && s.Linked(b)
    ensures s.info[b].haveData && (b.pprev != null ==> b.pprev in s.info && s.Linked(b.pprev))
  {
    ParentIsNode(s.info.Keys, b);
  }

  lemma {:induction false} LinkedAncestors(s: Tree, a: BlockIndex, b: BlockIndex)
    requires TreeOk(s) && LinkOk(s) && b in s.info && s.Linked(b) && IsAncestor(a, b)
    ensures a in s.info && s.Linked(a)
    decreases b.nHeight
  {
    hide GetSkipHeight, LinkOk;
    LinkedUp(s, b);
    if a != b {
      LinkedAncestors(s, a, b.pprev);
    }
  }

  /** The tip has nothing to do with how blocks are linked. */
  lemma TipKeepsRest(s: Tree, v: seq<BlockIndex?>, best: BlockIndex?)
    requires TreeOk(s) && PlacesOk(s) && LinkOk(s) && CandidatesLinked(s, best) && CandidatesComplete(s, best)
             && BestOk(s, best)
    ensures var z := WithTip(s, v);
            && TreeOk(z) && PlacesOk(z) && LinkOk(z) && CandidatesLinked(z, best) && CandidatesComplete(z, best)
            && BestOk(z, best)
  {
    hide GetSkipHeight, Blocked, LinkOk;
    TipKeepsLinks(s, v);
    assert WithTip(s, v).Failed() == s.Failed();
  }

  lemma TipKeepsStatus(s: Tree, v: seq<BlockIndex?>)
    requires TreeOk(s) && StatusOk(s) && Checked(s, WithTip(s, v).Tip())
    ensures StatusOk(WithTip(s, v))
  {
    hide GetSkipHeight, Blocked;
    assert FoundInvalid(WithTip(s, v)) == FoundInvalid(s);
  }

  /** The parent of a block that has been connected has been connected before. */
  lemma ParentIsChecked(s: Tree, b: BlockIndex)
    requires TreeOk(s) && StatusOk(s) && b in s.info && Checked(s, b)
    ensures Checked(s, b.pprev)
  {
  }

  lemma TipKeepsLinks(s: Tree, v: seq<BlockIndex?>)
    requires LinkOk(s)
    ensures LinkOk(WithTip(s, v))
  {
  }

  lemma DisconnectKeepsReady(s: Tree, best: BlockIndex?)
    requires Ready(s, best) && s.Tip() != null && s.Tip().pprev != null
    ensures Ready(WithTip(s, PathTo(s.Tip().pprev)), best)
  {
    hide GetSkipHeight, LinkOk, PlacesOk, CandidatesLinked, CandidatesComplete, BestOk, MarksOk;
    var v := PathTo(s.Tip().pprev);
    LinkedUp(s, s.Tip());
    TipKeepsRest(s, v, best);
    ParentIsChecked(s, s.Tip());
    TipKeepsStatus(s, v);
    hide ValidityOk;
    assert WithTip(s, v).Failed() == s.Failed();
  }

  // ---------- Connecting ----------

  function Pruned(s: Tree, b: BlockIndex): Tree {
    s.(candidates := set c | c in s.candidates && !Less(s, c, b))
  }

  function Better(s: Tree, best: BlockIndex?, b: BlockIndex): BlockIndex {
    if best == null || Less(s, best, b) then b else best
  }

  /** A block that can be connected next. */
  ghost predicate Next(s: Tree, b: BlockIndex) {
    b in s.info && s.Linked(b) && b.Rooted() && b.pprev == s.Tip() && !Blocked(s.Failed(), b)
  }

  lemma ConnectedCandidates(s: Tree, best: BlockIndex?, b: BlockIndex)
    requires TreeOk(s) && CandidatesLinked(s, best) && CandidatesComplete(s, best) && BestOk(s, best) && Next(s, b)
    ensures var z := Pruned(WithTip(s, PathTo(b)), b);
            && TreeOk(z) && CandidatesLinked(z, Better(s, best, b)) && CandidatesComplete(z, Better(s, best, b))
            && BestOk(z, Better(s, best, b)) && !Less(z, Better(s, best, b), b)
  {
    hide GetSkipHeight, Blocked, IsPath, PathTo;
    var z := Pruned(WithTip(s, PathTo(b)), b);
    assert z.Failed() == s.Failed();
    assert forall x, y :: Less(z, x, y) == Less(s, x, y);
  }

  /** A block that has been checked is connected. */
  lemma ConnectKeepsReady(s: Tree, best: BlockIndex?, b: BlockIndex)
    requires Ready(s, best) && Next(s, b) && Checked(s, b)
    ensures Ready(Pruned(WithTip(s, PathTo(b)), b), Better(s, best, b))
  {
    hide GetSkipHeight, Blocked, TreeOk, CandidatesLinked, CandidatesComplete, BestOk, PlacesOk, StatusOk;
    ConnectedCandidates(s, best, b);
    ConnectedChain(s, b);
    ConnectedStatus(s, b);
    hide Less, Better, LinkOk;
  }

  lemma ConnectedStatus(s: Tree, b: BlockIndex)
    requires TreeOk(s) && StatusOk(s) && Next(s, b) && Checked(s, b)
    requires TreeOk(Pruned(WithTip(s, PathTo(b)), b))
    ensures StatusOk(Pruned(WithTip(s, PathTo(b)), b))
  {
    hide GetSkipHeight, Blocked, TreeOk, Less, PathTo;
    PathEnds(b);
    assert FoundInvalid(Pruned(WithTip(s, PathTo(b)), b)) == FoundInvalid(s);
  }

  lemma ConnectedChain(s: Tree, b: BlockIndex)
    requires TreeOk(s) && PlacesOk(s) && LinkOk(s) && Next(s, b)
    ensures var z := Pruned(WithTip(s, PathTo(b)), b);
            PlacesOk(z) && LinkOk(z) && IsTree(z.info.Keys) && ChainOk(z) && z.Tip() == b && IsTree(z.info.Keys)
  {
    hide GetSkipHeight, Blocked, Less;
    var z := Pruned(WithTip(s, PathTo(b)), b);
    assert z.Failed() == s.Failed();
  }

  // ---------- Finding out that a block is valid ----------

  function Raised(s: Tree, b: BlockIndex): Tree
    requires b in s.info
  {
    if b.pprev == null || s.info[b].Failed() || s.info[b].validity >= VALID_SCRIPTS then s
    else s.(info := s.info[b := s.info[b].(validity := VALID_SCRIPTS)])
  }

  lemma RaisedIs(s: Tree, b: BlockIndex)
    requires Next(s, b)
    ensures var z := Raised(s, b);
            && SameButMarks(s, z) && z.Failed() == s.Failed() && FoundInvalid(z) == FoundInvalid(s)
            && z.candidates == s.candidates && Checked(z, b)
            && (forall x :: x in s.info ==> z.info[x] == s.info[x].(validity := z.info[x].validity))
            && (forall x :: x in s.info && x != b ==> z.info[x] == s.info[x])
            && z.info[b].validity >= s.info[b].validity
            && forall x, y :: Less(z, x, y) == Less(s, x, y)
  {
    hide GetSkipHeight, Blocked, BlockIndex.Rooted, Tree.Failed, FoundInvalid, Less;
    var z := Raised(s, b);
    NextIsUnfailed(s, b);
    assert z.info.Keys == s.info.Keys;
    SameMarks(s, z);
  }

  lemma NextIsUnfailed(s: Tree, b: BlockIndex)
    requires Next(s, b)
    ensures !s.info[b].Failed()
  {
  }

  lemma SameMarks(s: Tree, z: Tree)
    requires z.info.Keys == s.info.Keys
    requires forall x :: x in s.info ==> z.info[x] == s.info[x].(validity := z.info[x].validity)
    ensures z.Failed() == s.Failed() && FoundInvalid(z) == FoundInvalid(s)
    ensures forall x, y :: Less(z, x, y) == Less(s, x, y)
  {
  }

  lemma RaisedStatus(s: Tree, b: BlockIndex)
    requires TreeOk(s) && LinkOk(s) && StatusOk(s) && Next(s, b) && TreeOk(Raised(s, b))
    ensures StatusOk(Raised(s, b))
  {
    hide GetSkipHeight, Blocked, LinkOk, TreeOk;
    RaisedIs(s, b);
    LinkedUp(s, b);
    DataMeansTransactions(s, b);
    hide FoundInvalid;
  }

  lemma DataMeansTransactions(s: Tree, b: BlockIndex)
    requires LinkOk(s) && b in s.info && s.info[b].haveData
    ensures s.info[b].nTx > 0
  {
  }

  lemma RaiseKeepsReady(s: Tree, best: BlockIndex?, b: BlockIndex)
    requires Ready(s, best) && Next(s, b)
    ensures Ready(Raised(s, b), best) && Next(Raised(s, b), b) && Checked(Raised(s, b), b)
  {
    hide GetSkipHeight, Blocked, LinkOk, IsPath, StatusOk;
    RaisedIs(s, b);
    MarksKeepLinks(s, Raised(s, b));
    RaisedStatus(s, b);
    hide Raised, Less, Tree.Failed;
  }

  // ---------- Finding out that a block is invalid ----------

  function Invalidated(s: Tree, b: BlockIndex): Tree
    requires b in s.info
  {
    s.(info := s.info[b := s.info[b].(failedValid := true)], candidates := s.candidates - {b})
  }

  lemma {:induction false} HigherDoesNotBlock(bad: set<BlockIndex>, b: BlockIndex, x: BlockIndex)
    requires x.Rooted() && Blocked(bad + {b}, x) && b.nHeight > x.nHeight
    ensures Blocked(bad, x)
    decreases x.nHeight
  {
    hide GetSkipHeight;
    if x !in bad {
      HigherDoesNotBlock(bad, b, x.pprev);
    }
  }

  lemma InvalidKeepsLinks(s: Tree, b: BlockIndex)
    requires TreeOk(s) && PlacesOk(s) && LinkOk(s) && b in s.info
    ensures var z := Invalidated(s, b);
            z.info.Keys == s.info.Keys && TreeOk(z) && PlacesOk(z) && LinkOk(z) && z.Failed() == s.Failed() + {b}
    ensures FailsAt(s, Invalidated(s, b), b)
  {
    hide LinkOk, TreeOk, PlacesOk;
    var z := Invalidated(s, b);
    assert z.info.Keys == s.info.Keys;
    MarksKeepLinks(s, z);
  }

  lemma InvalidKeepsChain(s: Tree, b: BlockIndex)
    requires TreeOk(s) && ChainOk(s) && Next(s, b) && TreeOk(Invalidated(s, b))
             && Invalidated(s, b).Failed() == s.Failed() + {b}
    ensures ChainOk(Invalidated(s, b))
  {
    hide GetSkipHeight;
    if s.Tip() != null && Blocked(s.Failed() + {b}, s.Tip()) {
      HigherDoesNotBlock(s.Failed(), b, s.Tip());
    }
  }

  lemma InvalidKeepsCandidates(s: Tree, best: BlockIndex?, b: BlockIndex)
    requires TreeOk(s) && CandidatesLinked(s, best) && CandidatesComplete(s, best) && BestOk(s, best) && b in s.info
    requires TreeOk(Invalidated(s, b)) && Invalidated(s, b).Failed() == s.Failed() + {b}
    ensures var z := Invalidated(s, b);
            CandidatesLinked(z, best) && CandidatesComplete(z, best) && BestOk(z, best)
  {
    hide GetSkipHeight;
    var z := Invalidated(s, b);
    forall x | x in s.info && Blocked(s.Failed(), x)
      ensures Blocked(z.Failed(), x)
    {
      BlockedByMore(s.Failed(), z.Failed(), x);
    }
    hide Tree.Failed;
  }

  lemma InvalidKeepsReady(s: Tree, best: BlockIndex?, b: BlockIndex)
    requires Ready(s, best) && Next(s, b)
    ensures Ready(Invalidated(s, b), best)
  {
    hide GetSkipHeight, TreeOk, PlacesOk, LinkOk, ChainOk, CandidatesLinked, CandidatesComplete, BestOk, StatusOk;
    InvalidKeepsLinks(s, b);
    FailingKeepsStatus(s, Invalidated(s, b), b);
    InvalidKeepsChain(s, b);
    InvalidKeepsCandidates(s, best, b);
  }

  // ---------- The search for the best chain ----------

  function NoData(s: Tree): set<BlockIndex> { set b | b in s.info && !s.info[b].haveData }

  /** `z` is `s` after some blocks were marked as descending from failed ones, and some candidates were dropped
      because they, or an ancestor, have failed or lack data. */
  ghost predicate Swept(s: Tree, z: Tree)
    requires IsTree(s.info.Keys)
  {
    && z == s.(info := z.info, candidates := z.candidates, unlinked := z.unlinked)
    && z.info.Keys == s.info.Keys && z.candidates <= s.candidates
    && (forall b :: b in s.info ==>
          z.info[b] == s.info[b] || (z.info[b] == s.info[b].(failedChild := true) && Blocked(s.Failed(), b)))
    && (forall c :: c in s.candidates && c in s.info && c !in z.candidates ==>
        Blocked(s.Failed(), c) || Blocked(NoData(s), c))
    && (z.unlinked == s.unlinked || exists b :: b in s.info && s.Linked(b) && Blocked(NoData(s), b))
  }

  /** A candidate is dropped: it is marked, or waits for the data of its parent again. */
  function Dropped(s: Tree, b: BlockIndex, failedChain: bool): Tree
    requires b in s.info && b.pprev != null
  {
    (if failedChain then s.(info := s.info[b := s.info[b].(failedChild := true)])
     else s.(unlinked := s.unlinked[b.pprev := s.Range(b.pprev) + [b]])).(candidates := s.candidates - {b})
  }

  /** Sweeping makes no difference to which blocks descend from a failed one. */
  lemma SweptBlocked(s: Tree, z: Tree, b: BlockIndex)
    requires IsTree(s.info.Keys) && Swept(s, z) && b in s.info
    ensures Blocked(z.Failed(), b) <==> Blocked(s.Failed(), b)
    ensures Blocked(NoData(z), b) <==> Blocked(NoData(s), b)
  {
    hide GetSkipHeight;
    assert forall x :: x in s.Failed() ==> Blocked(s.Failed(), x);
    MarkingBlocked(s.Failed(), z.Failed(), b);
    assert NoData(z) == NoData(s);
  }

  lemma DropSweeps(s: Tree, z: Tree, to: BlockIndex, b: BlockIndex, failedChain: bool)
    requires TreeOk(s) && Swept(s, z) && b in s.info && s.Linked(b) && to in s.info && IsAncestor(to, b) && to != b
    requires if failedChain then to in z.Failed() else to in NoData(z)
    ensures b.pprev != null && Swept(s, Dropped(z, b, failedChain))
  {
    hide GetSkipHeight;
    SweptBlocked(s, z, to);
    if failedChain {
      BlockedByAncestor(s.Failed(), to, b);
    } else {
      BlockedByAncestor(NoData(s), to, b);
    }
  }

  lemma SweepLast(s: Tree, z: Tree, to: BlockIndex)
    requires TreeOk(s) && Swept(s, z) && to in s.info && (to in z.Failed() || to in NoData(z))
    ensures Swept(s, z.(candidates := z.candidates - {to}))
  {
    SweptBlocked(s, z, to);
  }

  lemma {:induction false} LinkedHasData(s: Tree, b: BlockIndex)
    requires TreeOk(s) && LinkOk(s) && b in s.info && s.Linked(b)
    ensures !Blocked(NoData(s), b)
    decreases b.nHeight
  {
    hide GetSkipHeight, LinkOk;
    LinkedUp(s, b);
    if b.pprev != null {
      LinkedHasData(s, b.pprev);
    }
  }

  lemma SweepKeepsChain(s: Tree, z: Tree)
    requires TreeOk(s) && ChainOk(s) && Swept(s, z)
    ensures z.info.Keys == s.info.Keys && ChainOk(z)
  {
    hide GetSkipHeight;
    if s.Tip() != null {
      SweptBlocked(s, z, s.Tip());
    }
  }

  lemma SweepKeepsCandidates(s: Tree, z: Tree, best: BlockIndex?)
    requires TreeOk(s) && CandidatesLinked(s, best) && CandidatesComplete(s, best) && BestOk(s, best) && Swept(s, z)
    requires forall b :: b in s.info && s.Linked(b) ==> !Blocked(NoData(s), b)
    ensures z.info.Keys == s.info.Keys
    ensures CandidatesLinked(z, best) && CandidatesComplete(z, best) && BestOk(z, best)
  {
    hide GetSkipHeight, Blocked;
    forall b | b in s.info
      ensures Blocked(z.Failed(), b) <==> Blocked(s.Failed(), b)
    {
      SweptBlocked(s, z, b);
    }
    assert forall x, y :: x in s.info && y in s.info ==> Less(z, x, y) == Less(s, x, y);
  }

  lemma SweepKeepsStatus(s: Tree, z: Tree)
    requires TreeOk(s) && StatusOk(s) && Swept(s, z)
    ensures z.info.Keys == s.info.Keys && StatusOk(z)
  {
    hide GetSkipHeight;
    assert FoundInvalid(z) == FoundInvalid(s);
    forall b | b in s.info && z.info[b].failedChild
      ensures Blocked(FoundInvalid(s), b)
    {
      FailedIsBelowInvalid(s, b);
    }
  }

  lemma SweepKeepsReady(s: Tree, z: Tree, best: BlockIndex?)
    requires Ready(s, best) && Swept(s, z)
    ensures Ready(z, best) && SameButMarks(s, z)
  {
    hide GetSkipHeight, Blocked, LinkOk, ChainOk, CandidatesLinked, CandidatesComplete, StatusOk;
    forall b | b in s.info && s.Linked(b)
      ensures !Blocked(NoData(s), b)
    {
      LinkedHasData(s, b);
    }
    MarksKeepLinks(s, z);
    SweepKeepsChain(s, z);
    SweepKeepsCandidates(s, z, best);
    SweepKeepsStatus(s, z);
  }

  // ---------- The best of a set ----------

  predicate IsBest(s: Tree, among: set<BlockIndex>, r: BlockIndex) {
    r in among && forall c :: c in among ==> !Less(s, r, c)
  }

  predicate IsWorst(s: Tree, among: set<BlockIndex>, r: BlockIndex) {
    r in among && forall c :: c in among ==> !Less(s, c, r)
  }

  lemma {:induction false} BestExists(s: Tree, among: set<BlockIndex>)
    requires among != {}
    ensures exists r :: IsBest(s, among, r)
    ensures exists r :: IsWorst(s, among, r)
    decreases |among|
  {
    var x :| x in among;
    var rest := among - {x};
    assert forall c :: c in among ==> c == x || c in rest;
    if rest == {} {
      assert IsBest(s, among, x) && IsWorst(s, among, x);
    } else {
      BestExists(s, rest);
      var r :| IsBest(s, rest, r);
      assert IsBest(s, among, if Less(s, r, x) then x else r);
      var w :| IsWorst(s, rest, w);
      assert IsWorst(s, among, if Less(s, x, w) then x else w);
    }
  }

  // ---------- On the way to the best candidate ----------

  /** `goal` is the best candidate and can be used, and the tip is on the way to it. */
  ghost predicate Heading(s: Tree, best: BlockIndex?, goal: BlockIndex) {
    Ready(s, best) && IsGoal(s, goal) && (s.Tip() != null ==> IsAncestor(s.Tip(), goal))
  }

  ghost predicate IsGoal(s: Tree, goal: BlockIndex) {
    IsBest(s, s.candidates, goal) && goal.Rooted() && !Blocked(s.Failed(), goal)
  }

  /** The height of the tip; a chain without blocks is one below genesis. */
  function TipHeight(s: Tree): int { |s.chain| - 1 }

  lemma {:induction false} UnblockedAncestors(bad: set<BlockIndex>, a: BlockIndex, b: BlockIndex)
    requires b.Rooted() && IsAncestor(a, b) && !Blocked(bad, b)
    ensures a.Rooted() && !Blocked(bad, a)
    decreases b.nHeight
  {
    hide GetSkipHeight;
    if a != b {
      UnblockedAncestors(bad, a, b.pprev);
    }
  }

  lemma RaiseKeepsHeading(s: Tree, best: BlockIndex?, goal: BlockIndex, b: BlockIndex)
    requires Heading(s, best, goal) && Next(s, b)
    ensures var z := Raised(s, b);
            && SameButMarks(s, z) && z.Failed() == s.Failed()
            && Heading(z, best, goal) && Next(z, b) && Checked(z, b)
  {
    hide GetSkipHeight, Blocked, Ready, Raised, Less;
    RaiseKeepsReady(s, best, b);
    RaisedIs(s, b);
  }

  lemma NextOnTheWay(s: Tree, best: BlockIndex?, goal: BlockIndex, b: BlockIndex)
    requires Heading(s, best, goal) && TipHeight(s) < goal.nHeight && b == Ancestor(goal, TipHeight(s) + 1)
    ensures Next(s, b)
  {
    hide GetSkipHeight, Blocked, LinkOk, CandidatesComplete, BestOk, Less, PathTo, PlacesOk;
    assert IsAncestor(b, goal);
    LinkedAncestors(s, b, goal);
    UnblockedAncestors(s.Failed(), b, goal);
    TipIsParent(s.chain, goal, b);
  }

  lemma TipIsParent(v: seq<BlockIndex?>, goal: BlockIndex, b: BlockIndex)
    requires IsPath(v) && goal.Rooted() && |v| <= goal.nHeight && b == Ancestor(goal, |v|)
    requires v != [] ==> v[|v| - 1] != null && IsAncestor(v[|v| - 1], goal)
    ensures b.pprev == if v == [] then null else v[|v| - 1]
  {
    hide GetSkipHeight;
    if v != [] {
      AncestorOfAncestor(goal, |v|, |v| - 1);
    }
  }

  lemma ConnectKeepsHeading(s: Tree, best: BlockIndex?, goal: BlockIndex, b: BlockIndex)
    requires Heading(s, best, goal) && Next(s, b) && Checked(s, b) && IsAncestor(b, goal)
    ensures var z := Pruned(WithTip(s, PathTo(b)), b);
            Heading(z, Better(s, best, b), goal) && !Less(z, goal, b) && z.Tip() == b && goal in s.info
  {
    hide GetSkipHeight, Blocked, LinkOk, CandidatesComplete, BestOk, IsPath, PathTo;
    ConnectKeepsReady(s, best, b);
    PathEnds(b);
    WorkGrows(b, goal);
    var z := Pruned(WithTip(s, PathTo(b)), b);
    assert z.Failed() == s.Failed();
  }

  lemma PathEnds(b: BlockIndex)
    requires b.Rooted()
    ensures PathTo(b) != [] && PathTo(b)[|PathTo(b)| - 1] == b
  {
  }

  /** All descend from genesis, so any chain with blocks has one in common with any other. */
  lemma ForkExists(s: Tree, goal: BlockIndex, fork: BlockIndex?)
    requires TreeOk(s) && ChainOk(s) && goal in s.info && IsFork(s.chain, goal, fork)
    ensures fork == null ==> s.chain == []
  {
    hide GetSkipHeight, Blocked;
    if s.chain != [] {
      assert s.chain[0] == Ancestor(s.Tip(), 0) == Ancestor(goal, 0);
    }
  }
}
