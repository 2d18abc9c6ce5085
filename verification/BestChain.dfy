/** Making the best chain active: finding it, disconnecting back to the fork, and connecting towards it. */
module BestChain {
  import opened BlockIndexes
  import opened ActiveChain
  import opened BlockTrees
  import opened BlockLinking
  import opened BestChainSpec
  import opened BlockTreeCheck

  // ---------- Finding the best chain ----------

  /** What the search relies on. */
  ghost predicate Searchable(s: Tree) {
    && TreeOk(s) && PlacesOk(s) && ChainOk(s)
    && (forall b :: b in s.info && s.Linked(b) && b.pprev != null ==> b.pprev in s.info && s.Linked(b.pprev))
    && forall c :: c in s.candidates ==> c in s.info && s.Linked(c)
  }

  lemma ReadyIsSearchable(s: Tree, best: BlockIndex?)
    requires Ready(s, best)
    ensures Searchable(s)
  {
    hide GetSkipHeight, Blocked, LinkOk;
    forall b | b in s.info && s.Linked(b)
      ensures b.pprev != null ==> b.pprev in s.info && s.Linked(b.pprev)
    {
      LinkedUp(s, b);
    }
  }

  lemma SweptIsSearchable(s: Tree, z: Tree)
    requires Searchable(s) && Swept(s, z)
    ensures Searchable(z)
  {
    hide GetSkipHeight, Blocked;
    SweepKeepsChain(s, z);
  }

  lemma BestCandidateExists(t: BlockTree)
    requires t.candidates != {} && t.candidates <= t.nodes
    ensures exists r :: r in t.candidates && forall c :: c in t.candidates ==> !Worse(r, c)
    ensures exists r :: r in t.candidates && forall c :: c in t.candidates ==> !Worse(c, r)
  {
    BestExists(t.View(), t.candidates);
    var r :| IsBest(t.View(), t.candidates, r);
    assert forall c :: c in t.candidates ==> !Worse(r, c);
    var w :| IsWorst(t.View(), t.candidates, w);
    assert forall c :: c in t.candidates ==> !Worse(c, w);
  }

  /** The best candidate. */
  method LastCandidate(t: BlockTree) returns (r: BlockIndex)
    requires t.candidates != {} && t.candidates <= t.nodes
    ensures IsBest(t.View(), t.candidates, r)
  {
    BestCandidateExists(t);
    r :| r in t.candidates && forall c :: c in t.candidates ==> !Worse(r, c);
  }

  /** Drops one candidate on the way from the best candidate to a block that makes it unusable. */
  method Drop(t: BlockTree, b: BlockIndex, failedChain: bool)
    requires b in t.nodes && b.pprev != null
    modifies t`candidates, t`unlinked, b`failedChild
    ensures t.View() == Dropped(old(t.View()), b, failedChain)
  {
    ghost var s := t.View();
    if failedChain {
      b.failedChild := true;
    } else {
      t.unlinked := t.unlinked[b.pprev := (if b.pprev in t.unlinked then t.unlinked[b.pprev] else []) + [b]];
    }
    t.candidates := t.candidates - {b};
    assert t.View().info == Dropped(s, b, failedChain).info;
  }

  method Erase(t: BlockTree, b: BlockIndex)
    modifies t`candidates
    ensures t.View() == old(t.View()).(candidates := old(t.candidates) - {b})
  {
    ghost var s := t.View();
    t.candidates := t.candidates - {b};
    assert t.View().info == s.info;
  }

  lemma SearchableIsSound(s: Tree, z: Tree)
    requires Searchable(s) && Swept(s, z)
    ensures z.info.Keys == s.info.Keys && forall b :: b in s.info ==> b.Rooted()
  {
  }

  /** While dropping candidates on the way down to `to`, having come to `b`. */
  ghost predicate Dropping(s: Tree, z: Tree, to: BlockIndex, b: BlockIndex, failedChain: bool) {
    && Searchable(s) && Swept(s, z) && b in s.info && s.Linked(b) && to in s.info && b.Rooted() && IsAncestor(to, b)
    && if failedChain then to in z.Failed() else to in NoData(z)
  }

  lemma DropOne(s: Tree, z: Tree, to: BlockIndex, b: BlockIndex, failedChain: bool)
    requires Dropping(s, z, to, b, failedChain) && to != b
    ensures b in z.info && b.pprev != null && b.pprev.nHeight < b.nHeight
    ensures Dropping(s, Dropped(z, b, failedChain), to, b.pprev, failedChain)
    ensures Dropped(z, b, failedChain).candidates == z.candidates - {b}
  {
    hide GetSkipHeight, Blocked, Swept, ChainOk;
    SearchableIsSound(s, z);
    DropSweeps(s, z, to, b, failedChain);
  }

  lemma SweepTo(s: Tree, z: Tree, to: BlockIndex, failedChain: bool)
    requires Dropping(s, z, to, to, failedChain)
    ensures Swept(s, z.(candidates := z.candidates - {to}))
  {
    hide Swept, ChainOk;
    SweepLast(s, z, to);
  }

  /** Drops all candidates from the best one down to a block that cannot be used. */
  method DropChain(t: BlockTree, from: BlockIndex, to: BlockIndex, failedChain: bool, ghost s: Tree)
    requires Dropping(s, t.View(), to, from, failedChain) && from in t.candidates
    modifies t`candidates, t`unlinked, t.nodes`failedChild
    ensures Swept(s, t.View()) && t.candidates < old(t.candidates)
  {
    hide Dropping, Swept, Dropped;
    var pindexFailed: BlockIndex := from;
    while to != pindexFailed
      invariant Dropping(s, t.View(), to, pindexFailed, failedChain)
      invariant t.candidates <= old(t.candidates) && (pindexFailed == from || from !in t.candidates)
      decreases pindexFailed.nHeight
    {
      DropOne(s, t.View(), to, pindexFailed, failedChain);
      Drop(t, pindexFailed, failedChain);
      pindexFailed := pindexFailed.pprev;
    }
    SweepTo(s, t.View(), to, failedChain);
    Erase(t, to);
  }

  /** While testing the path from `b`, having come to `test`: nothing above it has failed. */
  ghost predicate Testing(z: Tree, b: BlockIndex, test: BlockIndex?) {
    && b in z.info && b.Rooted()
    && (test != null ==> test in z.info && z.Linked(test) && test.Rooted() && IsAncestor(test, b))
    && (Blocked(z.Failed(), b) ==> test != null && Blocked(z.Failed(), test))
  }

  lemma TestStarts(z: Tree, b: BlockIndex)
    requires Searchable(z) && b in z.candidates
    ensures Testing(z, b, b)
  {
  }

  lemma TestNext(z: Tree, b: BlockIndex, test: BlockIndex)
    requires Searchable(z) && Testing(z, b, test) && test !in z.Failed()
    ensures Testing(z, b, test.pprev) && (test.pprev != null ==> test.pprev.nHeight < test.nHeight)
  {
    hide GetSkipHeight;
    if test.pprev != null {
      ParentOfAncestor(test, b);
    }
  }

  lemma TestDone(z: Tree, b: BlockIndex, test: BlockIndex?)
    requires Searchable(z) && Testing(z, b, test) && (test != null ==> On(z.chain, test))
    ensures b.Rooted() && !Blocked(z.Failed(), b)
  {
    hide GetSkipHeight;
    if test != null && Blocked(z.Failed(), test) {
      OnIsAncestor(z.chain, test);
      BlockedByAncestor(z.Failed(), test, z.Tip());
    }
  }

  /** Tests whether all blocks between a candidate and the active chain can be used; if not, drops those that cannot. */
  method TestPath(t: BlockTree, pindexNew: BlockIndex, ghost s: Tree) returns (usable: bool)
    requires Searchable(s) && Swept(s, t.View()) && pindexNew in t.candidates
    modifies t`candidates, t`unlinked, t.nodes`failedChild
    ensures Swept(s, t.View())
    ensures usable ==>
            t.View() == old(t.View()) && pindexNew in t.nodes && pindexNew.Rooted()
            && !Blocked(t.View().Failed(), pindexNew)
    ensures !usable ==> t.candidates < old(t.candidates)
  {
    hide Searchable, Swept, Dropping, GetSkipHeight, Blocked;
    ghost var z := t.View();
    SweptIsSearchable(s, z);
    TestStarts(z, pindexNew);
    var test: BlockIndex? := pindexNew;
    while test != null && !t.chain.Contains(test)
      invariant t.View() == z && Testing(z, pindexNew, test)
      decreases if test == null then 0 else test.nHeight + 1
    {
      assert test.nHeight > 0 ==> test.nChainTx != 0;
      var failedChain := test.Failed();
      var missingData := !test.haveData;
      if failedChain || missingData {
        StartDropping(s, z, pindexNew, test, failedChain);
        DropChain(t, pindexNew, test, failedChain, s);
        return false;
      }
      TestNext(z, pindexNew, test);
      test := test.pprev;
    }
    TestDone(z, pindexNew, test);
    usable := true;
  }

  lemma StartDropping(s: Tree, z: Tree, b: BlockIndex, test: BlockIndex, failedChain: bool)
    requires Searchable(s) && Swept(s, z) && Testing(z, b, test) && b in z.candidates
    requires if failedChain then test in z.Failed() else test in NoData(z)
    ensures Dropping(s, z, test, b, failedChain)
  {
  }

  lemma NothingSwept(s: Tree)
    requires TreeOk(s)
    ensures Swept(s, s)
  {
  }

  /** The best candidate that can be used; all better ones are dropped. */
  method FindMostWorkChain(t: BlockTree) returns (r: BlockIndex?)
    requires Searchable(t.View())
    modifies t`candidates, t`unlinked, t.nodes`failedChild
    ensures Swept(old(t.View()), t.View())
    ensures r == null ==> t.candidates == {}
    ensures r != null ==>
            r in t.nodes && IsBest(t.View(), t.candidates, r) && r.Rooted() && !Blocked(t.View().Failed(), r)
  {
    ghost var s := t.View();
    NothingSwept(s);
    while true
      invariant Swept(s, t.View())
      decreases t.candidates
    {
      if t.candidates == {} {
        return null;
      }
      SweptIsSearchable(s, t.View());
      r := LastCandidate(t);
      var usable := TestPath(t, r, s);
      if usable {
        return;
      }
    }
  }

  // ---------- Moving the tip ----------

  /** What connecting a block may come to.  A corrupted block is invalid, but perhaps only our copy of it; an error
      may come up before or after the block has been found valid. */
  datatype Verdict = Connected | Invalid | Corrupted | SystemError(valid: bool)

  /** Disconnects the tip, which may fail. */
  method DisconnectTip(t: BlockTree, ghost best: BlockIndex?) returns (ok: bool)
    requires Ready(t.View(), best) && t.chain.Tip() != null && t.chain.Tip().pprev != null
    modifies t.chain
    ensures Ready(t.View(), best) && t.View() == WithTip(old(t.View()), t.chain.vChain)
    ensures ok ==> var tip := old(t.chain.Tip()); tip.Rooted() && t.chain.vChain == PathTo(tip.pprev)
  {
    hide GetSkipHeight, Blocked, LinkOk, CandidatesLinked, CandidatesComplete, BestOk, PlacesOk;
    ghost var s := t.View();
    DisconnectKeepsReady(s, best);
    ok := *;
    if ok {
      var tip := t.chain.Tip();
      t.chain.SetTip(tip.pprev);
    }
    assert t.View().info == s.info;
  }

  /** Connects a block to the tip, its parent.  Whatever may happen does happen in some run; but our copy of a block
      is corrupted at most so many times. */
  method ConnectTip(t: BlockTree, b: BlockIndex, budget: nat, ghost best: BlockIndex?) returns (c: Verdict)
    requires Ready(t.View(), best) && Next(t.View(), b)
    modifies t.chain, t`candidates, t`tips, b`failedValid, b`validity
    ensures t.tips == if c.Connected? then old(t.tips) + {b} else old(t.tips)
    ensures t.View() == match c
                        case Connected => WithTip(Raised(old(t.View()), b), PathTo(b))
                        case Invalid => Invalidated(old(t.View()), b)
                        case Corrupted => old(t.View())
                        case SystemError(valid) => if valid then Raised(old(t.View()), b) else old(t.View())
    ensures c.Corrupted? ==> budget > 0
  {
    hide GetSkipHeight, Raised, Invalidated, WithTip, Ready, Next, PathTo;
    ghost var s := t.View();
    NextFollows(s, b, best);
    assert b.pprev == t.chain.Tip();
    c := *;
    if c.Corrupted? && budget == 0 {
      c := Invalid;
    }
    match c {
      case Connected =>
        RaiseForGood(t, b);
        AdvanceTip(t, b);
      case Invalid =>
        InvalidBlockFound(t, b);
      case Corrupted =>
      case SystemError(valid) =>
        if valid {
          RaiseForGood(t, b);
        }
    }
  }

  lemma NextFollows(s: Tree, b: BlockIndex, best: BlockIndex?)
    requires Ready(s, best) && Next(s, b)
    ensures b in s.info && b.Rooted() && IsPath(s.chain) && b.pprev == s.Tip()
  {
  }

  method AdvanceTip(t: BlockTree, b: BlockIndex)
    requires b.Rooted() && IsPath(t.chain.vChain)
    modifies t.chain, t`tips
    ensures t.View() == WithTip(old(t.View()), PathTo(b)) && t.tips == old(t.tips) + {b}
  {
    hide GetSkipHeight, PathTo, IsPath;
    ghost var s := t.View();
    t.chain.SetTip(b);
    t.tips := t.tips + {b};
    assert t.View().info == s.info;
  }

  method InvalidBlockFound(t: BlockTree, b: BlockIndex)
    requires b in t.nodes
    modifies t`candidates, b`failedValid
    ensures t.View() == Invalidated(old(t.View()), b)
  {
    ghost var s := t.View();
    b.failedValid := true;
    t.candidates := t.candidates - {b};
    assert t.View().info == Invalidated(s, b).info;
  }

  /** A block has been found valid, which is not noted of genesis. */
  method RaiseForGood(t: BlockTree, b: BlockIndex)
    requires b in t.nodes
    modifies b`validity
    ensures t.View() == Raised(old(t.View()), b)
  {
    ghost var s := t.View();
    if b.pprev != null {
      var raised := b.RaiseValidity(VALID_SCRIPTS);
    }
    assert t.View().info == Raised(s, b).info;
  }

  /** Drops the candidates that are worse than the tip, worst first; one that is better remains. */
  method PruneBlockIndexCandidates(t: BlockTree, ghost better: BlockIndex)
    requires t.candidates <= t.nodes && t.chain.Tip() != null && t.chain.Tip() in t.nodes
    requires better in t.candidates && !Less(t.View(), better, t.chain.Tip())
    modifies t`candidates
    ensures t.View() == Pruned(old(t.View()), t.chain.Tip()) && better in t.candidates
  {
    ghost var s := t.View();
    var tip := t.chain.Tip();
    while true
      invariant t.candidates <= s.candidates && t.candidates <= t.nodes && t.chain.Tip() == tip
      invariant forall c :: c in s.candidates ==> c in t.candidates || Worse(c, tip)
      decreases t.candidates
    {
      if t.candidates == {} {
        break;
      }
      BestCandidateExists(t);
      var c :| c in t.candidates && forall d :: d in t.candidates ==> !Worse(d, c);
      if !Worse(c, tip) {
        WorstIsGoodEnough(t, c, tip);
        break;
      }
      t.candidates := t.candidates - {c};
    }
    assert !Worse(better, tip);
    assert t.candidates != {};
    assert forall c :: c in s.candidates ==> (Less(s, c, tip) <==> Worse(c, tip));
    assert t.View().info == s.info;
  }

  lemma WorstIsGoodEnough(t: BlockTree, c: BlockIndex, tip: BlockIndex)
    requires c in t.candidates && (forall d :: d in t.candidates ==> !Worse(d, c)) && !Worse(c, tip)
    ensures forall d :: d in t.candidates ==> !Worse(d, tip)
  {
  }

  // ---------- Towards the best chain ----------

  /** How an attempt to get on ends: another block to go, in a better position than before, at a block that is invalid
      or a corrupted copy of one, or at an error. */
  datatype End = Onward | Improved | BadBlock | BadCopy | Failure

  predicate IsBetter(b: BlockIndex, than: BlockIndex?) { than == null || b.nChainWork > than.nChainWork }

  /** The blocks not known to be invalid. */
  function Unfailed(s: Tree): set<BlockIndex> { set b | b in s.info && !s.info[b].Failed() }

  /** Nothing is known of blocks but that more of them are valid. */
  ghost predicate OnlyRaised(s: Tree, z: Tree) {
    && z.info.Keys == s.info.Keys
    && forall b :: b in s.info ==> z.info[b] == s.info[b].(validity := z.info[b].validity)
  }

  /** What holds after an attempt to connect blocks towards `goal`. */
  ghost predicate Attempted(s: Tree, z: Tree, end: End, best: BlockIndex?, goal: BlockIndex, oldTip: BlockIndex?,
                            budget: nat) {
    && Ready(z, best) && z.info.Keys == s.info.Keys
    && (match end
        case Onward => OnlyRaised(s, z) && Heading(z, best, goal)
        case Improved => OnlyRaised(s, z) && Heading(z, best, goal) && z.Tip() != null && IsBetter(z.Tip(), oldTip)
        case BadBlock => Unfailed(z) < Unfailed(s) && TipHeight(z) < goal.nHeight
        case BadCopy => OnlyRaised(s, z) && budget > 0 && TipHeight(z) < goal.nHeight
        case Failure => true)
  }

  ghost predicate WasTip(t: BlockTree, best: BlockIndex?)
    reads t`tips
  {
    best != null ==> best in t.tips
  }

  lemma InvalidIsFewer(s: Tree, b: BlockIndex)
    requires Next(s, b)
    ensures Unfailed(Invalidated(s, b)) == Unfailed(s) - {b} && b in Unfailed(s)
  {
  }

  /** Connects the next block on the way. */
  method ConnectNext(t: BlockTree, b: BlockIndex, goal: BlockIndex, oldTip: BlockIndex?, budget: nat,
                     ghost best: BlockIndex?)
    returns (end: End, ghost best1: BlockIndex?)
    requires Heading(t.View(), best, goal) && WasTip(t, best)
    requires TipHeight(t.View()) < goal.nHeight && b == Ancestor(goal, TipHeight(t.View()) + 1)
    modifies t.chain, t`candidates, t`tips, t.nodes`failedValid, t.nodes`validity
    ensures Attempted(old(t.View()), t.View(), end, best1, goal, oldTip, budget) && WasTip(t, best1)
            && old(t.tips) <= t.tips
    ensures end.Onward? || end.Improved? ==> t.View().chain == PathTo(b)
  {
    hide GetSkipHeight, Heading, Ready, Next, Less, Raised, Invalidated, Ancestor, IsAncestor, Attempted,
      BlockTree.View, WithTip, Pruned, Better, PathTo;
    ghost var s := t.View();
    NextIsThere(s, best, goal, b);
    ViewIs(t);
    var c := ConnectTip(t, b, budget, best);
    best1 := best;
    match c {
      case Connected =>
        AfterConnecting(s, best, goal, b, oldTip, budget);
        best1 := Better(Raised(s, b), best, b);
        ViewIs(t);
        PruneBlockIndexCandidates(t, goal);
        end := if IsBetter(b, oldTip) then Improved else Onward;
      case Invalid =>
        AfterInvalid(s, best, goal, b, oldTip, budget);
        end := BadBlock;
      case Corrupted =>
        NothingConnected(s, best, goal, oldTip, budget);
        end := BadCopy;
      case SystemError(valid) =>
        NothingConnected(s, best, goal, oldTip, budget);
        AfterError(s, best, goal, b, oldTip, budget);
        end := Failure;
    }
  }

  lemma ViewIs(t: BlockTree)
    ensures var s := t.View();
            && s.candidates == t.candidates && s.info.Keys == t.nodes
            && s.chain == t.chain.vChain && s.Tip() == t.chain.Tip()
  {
  }

  lemma NextIsThere(s: Tree, best: BlockIndex?, goal: BlockIndex, b: BlockIndex)
    requires Heading(s, best, goal) && TipHeight(s) < goal.nHeight && b == Ancestor(goal, TipHeight(s) + 1)
    ensures Ready(s, best) && Next(s, b) && b in s.info && b.Rooted() && goal.Rooted() && IsAncestor(b, goal)
  {
    hide GetSkipHeight, Ready, Blocked;
    NextOnTheWay(s, best, goal, b);
  }

  /** A block has been connected, and the candidates pruned. */
  lemma AfterConnecting(s: Tree, best: BlockIndex?, goal: BlockIndex, b: BlockIndex, oldTip: BlockIndex?, budget: nat)
    requires Heading(s, best, goal) && Next(s, b) && IsAncestor(b, goal)
    ensures b in s.info && b.Rooted()
    ensures var y := WithTip(Raised(s, b), PathTo(b));
            && y.candidates <= y.info.Keys && y.info.Keys == s.info.Keys && y.Tip() == b && goal in y.candidates
            && !Less(y, goal, b) && Pruned(y, b).chain == PathTo(b) && Better(Raised(s, b), best, b) in {best, b}
            && Attempted(s, Pruned(y, b), if IsBetter(b, oldTip) then Improved else Onward,
                         Better(Raised(s, b), best, b), goal, oldTip, budget)
  {
    hide GetSkipHeight, Next, PathTo, IsAncestor, Raised, Less, IsGoal, Ready;
    IsThere(s, b);
    RaiseKeepsHeading(s, best, goal, b);
    OnlyRaisedBy(s, b);
    ConnectKeepsHeading(Raised(s, b), best, goal, b);
    PruneAllowed(Raised(s, b), best, goal, b);
  }

  lemma IsThere(s: Tree, b: BlockIndex)
    requires Next(s, b)
    ensures b in s.info && b.Rooted()
  {
  }

  /** A block has been found invalid. */
  lemma AfterInvalid(s: Tree, best: BlockIndex?, goal: BlockIndex, b: BlockIndex, oldTip: BlockIndex?, budget: nat)
    requires Heading(s, best, goal) && TipHeight(s) < goal.nHeight && Next(s, b)
    ensures b in s.info && Attempted(s, Invalidated(s, b), BadBlock, best, goal, oldTip, budget)
  {
    hide GetSkipHeight, Next, Ready, IsGoal, IsAncestor;
    IsThere(s, b);
    InvalidKeepsReady(s, best, b);
    InvalidIsFewer(s, b);
  }

  /** An error has come up after the block was found valid. */
  lemma AfterError(s: Tree, best: BlockIndex?, goal: BlockIndex, b: BlockIndex, oldTip: BlockIndex?, budget: nat)
    requires Heading(s, best, goal) && Next(s, b)
    ensures b in s.info && Attempted(s, Raised(s, b), Failure, best, goal, oldTip, budget)
  {
    hide GetSkipHeight, Next, Ready, IsGoal, IsAncestor, Raised;
    IsThere(s, b);
    RaiseKeepsReady(s, best, b);
    OnlyRaisedBy(s, b);
  }

  lemma NothingConnected(s: Tree, best: BlockIndex?, goal: BlockIndex, oldTip: BlockIndex?, budget: nat)
    requires Heading(s, best, goal) && TipHeight(s) < goal.nHeight
    ensures Attempted(s, s, Failure, best, goal, oldTip, budget)
    ensures budget > 0 ==> Attempted(s, s, BadCopy, best, goal, oldTip, budget)
  {
  }

  lemma OnlyRaisedBy(s: Tree, b: BlockIndex)
    requires Next(s, b)
    ensures OnlyRaised(s, Raised(s, b))
  {
  }

  lemma PruneAllowed(s: Tree, best: BlockIndex?, goal: BlockIndex, b: BlockIndex)
    requires Heading(s, best, goal) && Next(s, b) && IsAncestor(b, goal)
    ensures var z := WithTip(s, PathTo(b));
            z.candidates <= z.info.Keys && z.Tip() == b && b in z.info && goal in z.candidates && !Less(z, goal, b)
  {
    hide GetSkipHeight, Blocked, LinkOk, CandidatesComplete, BestOk, ChainOk, PathTo;
    PathEnds(b);
    WorkGrows(b, goal);
  }

  /** The blocks towards `goal` with heights above `lo` and up to `hi`, highest first. */
  method BlocksTowards(goal: BlockIndex, lo: int, hi: nat) returns (v: seq<BlockIndex>)
    requires goal.Rooted() && -1 <= lo < hi <= goal.nHeight
    ensures |v| == hi - lo && forall k :: 0 <= k < |v| ==> v[k] == Ancestor(goal, hi - k)
  {
    hide GetSkipHeight, BlockIndex.Rooted, Ancestor;
    v := [];
    var iter := goal.GetAncestor(hi);
    while iter != null && iter.nHeight != lo
      invariant iter == null ==> lo == -1 && |v| == hi + 1
      invariant iter != null ==> lo <= hi - |v| && hi - |v| >= 0 && iter == Ancestor(goal, hi - |v|)
      invariant forall k :: 0 <= k < |v| ==> v[k] == Ancestor(goal, hi - k)
      decreases if iter == null then 0 else iter.nHeight + 1
    {
      ParentAt(goal, hi - |v|);
      v := v + [iter];
      iter := iter.pprev;
    }
  }

  lemma StillHeading(s: Tree, y: Tree, z: Tree, end: End, best: BlockIndex?, goal: BlockIndex, oldTip: BlockIndex?,
                     budget: nat)
    requires OnlyRaised(s, y) && Attempted(y, z, end, best, goal, oldTip, budget)
    ensures Attempted(s, z, end, best, goal, oldTip, budget)
  {
  }

  /** Connects a list of blocks, the last one first, until something is better or wrong. */
  method ConnectList(t: BlockTree, v: seq<BlockIndex>, goal: BlockIndex, oldTip: BlockIndex?, budget: nat,
                     ghost best: BlockIndex?)
    returns (end: End, ghost best1: BlockIndex?)
    requires Heading(t.View(), best, goal) && WasTip(t, best)
    requires TipHeight(t.View()) + |v| <= goal.nHeight
    requires forall k :: 0 <= k < |v| ==> v[k] == Ancestor(goal, TipHeight(t.View()) + |v| - k)
    modifies t.chain, t`candidates, t`tips, t.nodes`failedValid, t.nodes`validity
    ensures Attempted(old(t.View()), t.View(), end, best1, goal, oldTip, budget) && WasTip(t, best1)
            && old(t.tips) <= t.tips
    ensures end.Onward? ==> TipHeight(t.View()) == TipHeight(old(t.View())) + |v|
  {
    hide GetSkipHeight, Attempted, Ready, Heading, WasTip;
    ghost var s := t.View();
    best1 := best;
    end := Onward;
    NothingAttempted(s, best, goal, oldTip, budget);
    var i := |v|;
    while i > 0
      invariant 0 <= i <= |v| && end == Onward && t.nodes == old(t.nodes) && old(t.tips) <= t.tips
      invariant Attempted(s, t.View(), Onward, best1, goal, oldTip, budget) && WasTip(t, best1)
      invariant TipHeight(t.View()) == TipHeight(s) + |v| - i
    {
      i := i - 1;
      ghost var y := t.View();
      OnwardIsHeading(s, y, best1, goal, oldTip, budget);
      end, best1 := ConnectNext(t, v[i], goal, oldTip, budget, best1);
      StillHeading(s, y, t.View(), end, best1, goal, oldTip, budget);
      if end != Onward {
        return;
      }
    }
  }

  lemma NothingAttempted(s: Tree, best: BlockIndex?, goal: BlockIndex, oldTip: BlockIndex?, budget: nat)
    requires Heading(s, best, goal)
    ensures Attempted(s, s, Onward, best, goal, oldTip, budget)
  {
  }

  lemma OnwardIsHeading(s: Tree, z: Tree, best: BlockIndex?, goal: BlockIndex, oldTip: BlockIndex?, budget: nat)
    requires Attempted(s, z, Onward, best, goal, oldTip, budget)
    ensures OnlyRaised(s, z) && Heading(z, best, goal) && goal.Rooted()
  {
  }

  /** Disconnects blocks until the tip is on the way to the goal. */
  method DisconnectTo(t: BlockTree, fork: BlockIndex?, goal: BlockIndex, ghost best: BlockIndex?) returns (ok: bool)
    requires Ready(t.View(), best) && IsGoal(t.View(), goal) && IsFork(t.View().chain, goal, fork)
             && (fork == null ==> t.View().chain == [])
    modifies t.chain
    ensures Ready(t.View(), best) && t.View() == WithTip(old(t.View()), t.chain.vChain)
    ensures ok ==> Heading(t.View(), best, goal) && TipHeight(t.View()) == if fork == null then -1 else fork.nHeight
  {
    hide GetSkipHeight, Ready, IsGoal, PathTo;
    ghost var s := t.View();
    TipAboveFork(s, goal, fork, best);
    while t.chain.Tip() != null && t.chain.Tip() != fork
      invariant Ready(t.View(), best) && t.View() == WithTip(s, t.chain.vChain)
      invariant AboveFork(t.chain.Tip(), fork)
      decreases |t.chain.vChain|
    {
      ghost var y := t.View();
      ParentAboveFork(y, t.chain.Tip(), fork, best);
      ok := DisconnectTip(t, best);
      if !ok {
        return;
      }
    }
    AtFork(s, t.View(), goal, fork, best);
    ok := true;
  }

  /** The tip is the fork or above it. */
  ghost predicate AboveFork(tip: BlockIndex?, fork: BlockIndex?) {
    if fork == null then tip == null else tip != null && tip.Rooted() && IsAncestor(fork, tip)
  }

  lemma TipAboveFork(s: Tree, goal: BlockIndex, fork: BlockIndex?, best: BlockIndex?)
    requires Ready(s, best) && IsGoal(s, goal) && IsFork(s.chain, goal, fork) && (fork == null ==> s.chain == [])
    ensures AboveFork(s.Tip(), fork)
  {
    hide GetSkipHeight, LinkOk, CandidatesLinked, CandidatesComplete, BestOk, Blocked;
  }

  lemma ParentAboveFork(s: Tree, tip: BlockIndex, fork: BlockIndex?, best: BlockIndex?)
    requires Ready(s, best) && s.Tip() == tip && tip != fork && AboveFork(tip, fork)
    ensures tip.Rooted() && tip.pprev != null && AboveFork(tip.pprev, fork)
    ensures |PathTo(tip.pprev)| == |s.chain| - 1 && PathTo(tip.pprev) != []
            && PathTo(tip.pprev)[|s.chain| - 2] == tip.pprev
  {
    hide GetSkipHeight, LinkOk, CandidatesLinked, CandidatesComplete, BestOk, Blocked;
  }

  lemma AtFork(s: Tree, z: Tree, goal: BlockIndex, fork: BlockIndex?, best: BlockIndex?)
    requires IsGoal(s, goal) && IsFork(s.chain, goal, fork) && z == WithTip(s, z.chain) && Ready(z, best)
    requires AboveFork(z.Tip(), fork) && (z.Tip() == null || z.Tip() == fork)
    ensures Heading(z, best, goal) && TipHeight(z) == if fork == null then -1 else fork.nHeight
  {
    hide GetSkipHeight, LinkOk, CandidatesLinked, CandidatesComplete, BestOk, Blocked;
    assert z.Failed() == s.Failed();
    assert forall a, b :: Less(z, a, b) == Less(s, a, b);
  }

  /** Tries to get towards the best candidate, until in a better position than before or at an invalid block. */
  method ActivateBestChainStep(t: BlockTree, goal: BlockIndex, budget: nat, ghost best: BlockIndex?)
    returns (end: End, ghost best1: BlockIndex?)
    requires Ready(t.View(), best) && IsGoal(t.View(), goal) && goal in t.nodes && WasTip(t, best)
    modifies t.chain, t`candidates, t`tips, t.nodes`failedValid, t.nodes`validity
    ensures Attempted(old(t.View()), t.View(), end, best1, goal, old(t.chain.Tip()), budget)
    ensures end.Onward? ==> TipHeight(t.View()) == goal.nHeight
    ensures WasTip(t, best1) && old(t.tips) <= t.tips
  {
    hide GetSkipHeight, Attempted, Ready, Heading, WasTip, IsFork, IsGoal, IsPath, PathTo;
    ghost var s := t.View();
    GoalIsSound(s, goal, best);
    best1 := best;
    var oldTip := t.chain.Tip();
    var fork := t.chain.FindFork(goal);
    assert t.View().info == s.info;
    ForkIsSound(s, goal, fork, best);
    var ok := DisconnectTo(t, fork, goal, best);
    if !ok {
      end := Failure;
      FailureIsAttempt(s, t.View(), best, goal, oldTip, budget);
      return;
    }
    ghost var y := t.View();
    end, best1 := ConnectTowards(t, goal, if fork == null then -1 else fork.nHeight, oldTip, budget, best);
    StillHeading(s, y, t.View(), end, best1, goal, oldTip, budget);
  }

  /** Connects the blocks above a height, 32 at a time. */
  method ConnectTowards(t: BlockTree, goal: BlockIndex, from: int, oldTip: BlockIndex?, budget: nat,
                        ghost best: BlockIndex?)
    returns (end: End, ghost best1: BlockIndex?)
    requires Heading(t.View(), best, goal) && WasTip(t, best) && -1 <= from <= goal.nHeight
             && TipHeight(t.View()) == from
    modifies t.chain, t`candidates, t`tips, t.nodes`failedValid, t.nodes`validity
    ensures Attempted(old(t.View()), t.View(), end, best1, goal, oldTip, budget)
    ensures end.Onward? ==> TipHeight(t.View()) == goal.nHeight
    ensures WasTip(t, best1) && old(t.tips) <= t.tips
  {
    hide GetSkipHeight, Attempted, Ready, Heading, WasTip, IsFork, IsGoal, IsPath, PathTo;
    ghost var s := t.View();
    best1 := best;
    NothingAttempted(s, best, goal, oldTip, budget);
    var height := from;
    end := Onward;
    while height != goal.nHeight
      invariant -1 <= height <= goal.nHeight && TipHeight(t.View()) == height && end == Onward
      invariant Attempted(s, t.View(), Onward, best1, goal, oldTip, budget) && WasTip(t, best1) && old(t.tips) <= t.tips
      invariant t.nodes == old(t.nodes)
      decreases goal.nHeight - height
    {
      var target := if height + 32 < goal.nHeight then height + 32 else goal.nHeight;
      ghost var z := t.View();
      OnwardIsHeading(s, z, best1, goal, oldTip, budget);
      var v := BlocksTowards(goal, height, target);
      height := target;
      end, best1 := ConnectList(t, v, goal, oldTip, budget, best1);
      StillHeading(s, z, t.View(), end, best1, goal, oldTip, budget);
      if end != Onward {
        return;
      }
    }
  }

  lemma GoalIsSound(s: Tree, goal: BlockIndex, best: BlockIndex?)
    requires Ready(s, best) && IsGoal(s, goal)
    ensures IsPath(s.chain) && goal.Rooted()
  {
  }

  lemma ForkIsSound(s: Tree, goal: BlockIndex, fork: BlockIndex?, best: BlockIndex?)
    requires Ready(s, best) && goal in s.info && goal.Rooted() && IsFork(s.chain, goal, fork)
    ensures fork == null ==> s.chain == []
    ensures fork != null ==> fork.nHeight <= goal.nHeight
  {
    hide GetSkipHeight, LinkOk, CandidatesLinked, CandidatesComplete, BestOk, Blocked;
    ForkExists(s, goal, fork);
  }

  lemma FailureIsAttempt(s: Tree, z: Tree, best: BlockIndex?, goal: BlockIndex, oldTip: BlockIndex?, budget: nat)
    requires Ready(z, best) && z.info.Keys == s.info.Keys
    ensures Attempted(s, z, Failure, best, goal, oldTip, budget)
  {
  }

  // ---------- Making the best chain active ----------

  /** Any other linked block that is not known to be invalid has less work, or has been received later, or is at a
      higher address. */
  ghost predicate IsBestOfAll(s: Tree, tip: BlockIndex?)
    requires IsTree(s.info.Keys)
  {
    && tip != null && tip in s.info && s.Linked(tip) && !Blocked(s.Failed(), tip)
    && forall b :: b in s.info && s.Linked(b) && !Blocked(s.Failed(), b) ==>
         || b.nChainWork < tip.nChainWork
         || (b.nChainWork == tip.nChainWork && s.info[b].nSequenceId > s.info[tip].nSequenceId)
         || (b.nChainWork == tip.nChainWork && s.info[b].nSequenceId == s.info[tip].nSequenceId
             && b.address >= tip.address)
  }

  lemma BestCandidateIsBestOfAll(s: Tree, best: BlockIndex?)
    requires Ready(s, best) && s.Tip() != null && IsBest(s, s.candidates, s.Tip())
    ensures Valid(s) && IsBestOfAll(s, s.Tip())
  {
    hide GetSkipHeight, Blocked, LinkOk, IsPath;
    TipIsBest(s, best);
    ReadyIsValid(s);
  }

  /** Nothing to choose from: then the best tip there has been is known to be invalid, or there has been none. */
  lemma NothingLeft(s: Tree, best: BlockIndex?)
    requires Ready(s, best) && s.candidates == {}
    ensures best != null ==> best in s.info && Blocked(s.Failed(), best)
    ensures best == null ==> forall b :: b in s.info && s.Linked(b) ==> Blocked(s.Failed(), b)
  {
    hide GetSkipHeight, Blocked, LinkOk;
  }

  function MoreWork(s: Tree): set<BlockIndex> { set b | b in s.info && IsBetter(b, s.Tip()) }

  lemma SweepShrinks(s: Tree, z: Tree)
    requires TreeOk(s) && Swept(s, z)
    ensures Unfailed(z) <= Unfailed(s) && MoreWork(z) == MoreWork(s) && z.Tip() == s.Tip()
  {
  }

  lemma AttemptShrinks(s: Tree, z: Tree, end: End, best: BlockIndex?, goal: BlockIndex, budget: nat)
    requires Attempted(s, z, end, best, goal, s.Tip(), budget)
    ensures end.BadBlock? ==> Unfailed(z) < Unfailed(s)
    ensures end.BadCopy? ==> Unfailed(z) == Unfailed(s) && budget > 0
    ensures end.Improved? ==> Unfailed(z) == Unfailed(s) && MoreWork(z) < MoreWork(s)
    ensures Ready(z, best)
    ensures end.BadBlock? || end.BadCopy? ==> z.Tip() != goal
    ensures end.Improved? || end.Onward? ==> IsBest(z, z.candidates, goal)
    ensures end.Onward? && TipHeight(z) == goal.nHeight ==> z.Tip() == goal
  {
    hide GetSkipHeight, LinkOk, CandidatesLinked, CandidatesComplete, BestOk, Blocked, IsBest, PlacesOk;
    if end.Improved? {
      assert z.Tip() in MoreWork(s) && z.Tip() !in MoreWork(z);
    }
  }

  /** One round: find the best candidate and try to get to it. */
  method ActivateRound(t: BlockTree, budget: nat, ghost best: BlockIndex?)
    returns (done: bool, ok: bool, left: nat, ghost best1: BlockIndex?)
    requires Ready(t.View(), best) && WasTip(t, best)
    modifies t.chain, t`candidates, t`unlinked, t`tips, t.nodes`failedChild, t.nodes`failedValid,
      t.nodes`validity
    ensures Ready(t.View(), best1) && WasTip(t, best1) && old(t.tips) <= t.tips && t.nodes == old(t.nodes)
    ensures done && ok ==>
            t.candidates == {} || (t.View().Tip() != null && IsBest(t.View(), t.candidates, t.View().Tip()))
    ensures !done ==> var (s, z) := (old(t.View()), t.View());
              Unfailed(z) < Unfailed(s) ||
                (Unfailed(z) == Unfailed(s) && (left < budget || (left == budget && MoreWork(z) < MoreWork(s))))
    ensures old(Settled(t.View(), best)) ==> done && ok && t.chain.vChain == old(t.chain.vChain)
  {
    hide GetSkipHeight, Ready, Attempted, Swept, WasTip, IsBest, IsGoal, Blocked, Unfailed, MoreWork, Searchable,
      TreeOk, PlacesOk, Settled;
    ghost var s := t.View();
    left, best1 := budget, best;
    ReadyIsSearchable(s, best);
    var goal := FindMostWorkChain(t);
    ghost var y := t.View();
    ReadyIsTree(s, best);
    SweepKeepsReady(s, y, best);
    SweepShrinks(s, y);
    if Settled(s, best) {
      GoalIsTip(s, y, best, goal);
    }
    if goal == null || goal == t.chain.Tip() {
      return true, true, left, best1;
    }
    MakesGoal(y, goal);
    var end;
    end, best1 := ActivateBestChainStep(t, goal, budget, best1);
    AttemptShrinks(y, t.View(), end, best1, goal, budget);
    if end.Failure? {
      return true, false, left, best1;
    }
    if end.BadCopy? {
      left := budget - 1;
    }
    done := goal == t.chain.Tip();
    ok := true;
  }

  /** The tip is the best tip there has been, and no usable block is better. */
  ghost predicate Settled(s: Tree, best: BlockIndex?) {
    s.Tip() != null && best == s.Tip() && IsTree(s.info.Keys) && IsBestOfAll(s, s.Tip())
  }

  /** Then the best candidate that can be used is the tip. */
  lemma GoalIsTip(s: Tree, z: Tree, best: BlockIndex?, goal: BlockIndex?)
    requires Ready(s, best) && Settled(s, best) && Swept(s, z)
    requires goal == null ==> z.candidates == {}
    requires goal != null ==> IsBest(z, z.candidates, goal) && goal.Rooted() && !Blocked(z.Failed(), goal)
    ensures goal == s.Tip()
  {
    hide GetSkipHeight, IsPath, CandidatesComplete, LinkOk, ChainOk, StatusOk, Blocked;
    TipStays(s, z, best);
    if goal != s.Tip() {
      SweptBlocked(s, z, goal);
      assert Less(z, goal, s.Tip()) == Less(s, goal, s.Tip()) && Less(s, s.Tip(), goal) == Less(z, s.Tip(), goal);
      LessIsTotal(s, goal, s.Tip());
    }
  }

  lemma TipStays(s: Tree, z: Tree, best: BlockIndex?)
    requires Ready(s, best) && Settled(s, best) && Swept(s, z)
    ensures s.Tip() in z.candidates
  {
    hide GetSkipHeight, IsPath, CandidatesComplete, StatusOk, Blocked;
    LinkedHasData(s, s.Tip());
  }

  lemma ReadyIsTree(s: Tree, best: BlockIndex?)
    requires Ready(s, best)
    ensures TreeOk(s)
  {
  }

  lemma MakesGoal(s: Tree, goal: BlockIndex)
    requires IsBest(s, s.candidates, goal) && goal.Rooted() && !Blocked(s.Failed(), goal)
    ensures IsGoal(s, goal)
  {
  }

  /** Makes the best chain active, or stops at an error.  If it succeeds, no linked block that is not known to be
      invalid is better than the tip; unless nothing is left to choose from, which can only be if a block that
      once was the tip has turned out to be invalid.  It always ends, if copies of blocks are corrupted only so often.
      */
  method ActivateBestChain(t: BlockTree, budget: nat) returns (ok: bool, ghost best: BlockIndex?)
    requires Valid(t.View()) && (t.chain.Tip() != null ==> t.chain.Tip() in t.tips)
    modifies t.chain, t`candidates, t`unlinked, t`tips, t.nodes`failedChild, t.nodes`failedValid,
      t.nodes`validity
    ensures Ready(t.View(), best) && (best != null ==> best in t.tips) && old(t.tips) <= t.tips
    ensures ok && t.candidates != {} ==>
            Valid(t.View()) && IsBestOfAll(t.View(), t.View().Tip()) && CheckBlockIndex(t.View())
    ensures ok && t.candidates == {} && best != null ==>
            best in t.View().info && best.Rooted() && Blocked(t.View().Failed(), best)
    ensures ok && t.candidates == {} && best == null ==>
              forall b :: b in t.View().info && t.View().Linked(b) ==> b.Rooted() && Blocked(t.View().Failed(), b)
    ensures old(Settled(t.View(), t.chain.Tip())) ==> ok && t.chain.vChain == old(t.chain.vChain)
  {
    hide GetSkipHeight, Ready, IsBest, Blocked, Valid, IsBestOfAll, CheckBlockIndex, Settled;
    var left := budget;
    best := t.chain.Tip();
    ValidIsReady(t.View());
    while true
      invariant Ready(t.View(), best) && WasTip(t, best) && old(t.tips) <= t.tips && t.nodes == old(t.nodes)
      invariant old(Settled(t.View(), t.chain.Tip())) ==> t.View() == old(t.View()) && best == t.chain.Tip()
      decreases Unfailed(t.View()), left, MoreWork(t.View())
    {
      var done;
      done, ok, left, best := ActivateRound(t, left, best);
      if done {
        break;
      }
    }
    if ok {
      Activated(t.View(), best);
    }
  }

  lemma Activated(s: Tree, best: BlockIndex?)
    requires Ready(s, best) && (s.candidates == {} || (s.Tip() != null && IsBest(s, s.candidates, s.Tip())))
    ensures IsTree(s.info.Keys)
    ensures s.candidates != {} ==> Valid(s) && IsBestOfAll(s, s.Tip()) && CheckBlockIndex(s)
    ensures s.candidates == {} && best != null ==> best in s.info && best.Rooted() && Blocked(s.Failed(), best)
    ensures s.candidates == {} && best == null ==> forall b :: b in s.info && s.Linked(b) ==>
            b.Rooted() && Blocked(s.Failed(), b)
  {
    hide GetSkipHeight, Blocked, LinkOk, IsPath, Valid, IsBestOfAll, CheckBlockIndex, StatusOk;
    if s.candidates == {} {
      NothingLeft(s, best);
    } else {
      BestCandidateIsBestOfAll(s, best);
      ValidPasses(s);
    }
  }

  // ---------- Blocks of equal work ----------

  /** Every block that has been linked in between, and is not known to be invalid, has at most this much work. */
  ghost predicate NoneHeavier(s: Tree, z: Tree, work: nat)
    requires IsTree(z.info.Keys)
  {
    forall b :: b in z.info && z.Linked(b) && !s.Linked(b) && !Blocked(z.Failed(), b) ==> b.nChainWork <= work
  }

  /** The tip is the best there is, and nothing linked since has more work. */
  ghost predicate NothingBetter(s: Tree, z: Tree) {
    Settled(s, s.Tip()) && IsTree(z.info.Keys) && NoneHeavier(s, z, s.Tip().nChainWork)
  }

  /** Blocks received later do not replace the tip unless they have more work. */
  lemma FirstReceivedStays(s: Tree, z: Tree)
    requires NothingBetter(s, z) && LinkedLater(s, z)
    ensures Settled(z, z.Tip()) && z.Tip() == s.Tip()
  {
    hide GetSkipHeight, IsTree, Tree.Failed, Blocked;
    assert s.info[s.Tip()] == z.info[s.Tip()];
  }

  /** Data arrive, and the best chain is made active: of blocks of equal work, the one received first remains the tip,
      whatever the outcome of connecting others might be. */
  method ReceiveAndActivate(t: BlockTree, b: BlockIndex, nTx: nat, budget: nat) returns (ok: bool, ghost between: Tree)
    requires Valid(t.View()) && (t.chain.Tip() != null ==> t.chain.Tip() in t.tips)
    requires b in t.nodes && !b.haveData && nTx > 0 && !b.Failed() && (b.pprev != null ==> !b.pprev.Failed())
    modifies t.chain, t`candidates, t`unlinked, t`nBlockSequenceId, t`received, t`tips, t.nodes
    ensures LinkedLater(old(t.View()), between) && Valid(between)
    ensures NothingBetter(old(t.View()), between) ==> ok && t.chain.vChain == old(t.chain.vChain)
  {
    hide Valid, GetSkipHeight, Settled, LinkedLater, Blocked, NothingBetter, Ready;
    ghost var s := t.View();
    ReceivedBlockTransactions(t, b, nTx);
    between := t.View();
    SameTip(s, between);
    if NothingBetter(s, between) {
      FirstReceivedStays(s, between);
    }
    ghost var best;
    ok, best := ActivateBestChain(t, budget);
  }

  lemma SameTip(s: Tree, z: Tree)
    requires Valid(z) && LinkedLater(s, z)
    ensures z.chain == s.chain && z.Tip() == s.Tip() && IsTree(z.info.Keys)
  {
  }
}
