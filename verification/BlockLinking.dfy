/** Adding headers to the block tree, and linking blocks whose data arrive in any order. */
module BlockLinking {
  import opened BlockIndexes
  import opened ActiveChain
  import opened BlockTrees

  // ---------- What the counts mean ----------

  ghost predicate AllHaveData(s: Tree, b: BlockIndex)
    requires b.Rooted()
    decreases b.nHeight
  {
    s.Of(b).haveData && (b.pprev == null || AllHaveData(s, b.pprev))
  }

  ghost function SumTx(s: Tree, b: BlockIndex): nat
    requires b.Rooted()
    decreases b.nHeight
  {
    s.Of(b).nTx + if b.pprev == null then 0 else SumTx(s, b.pprev)
  }

  /** Transactions are counted exactly when the block and all its ancestors have data, and then all of them are. */
  lemma {:induction false} ChainTxIsSum(s: Tree, b: BlockIndex)
    requires IsTree(s.info.Keys) && LinkOk(s) && b in s.info
    ensures s.info[b].nChainTx != 0 <==> AllHaveData(s, b)
    ensures s.info[b].nChainTx != 0 ==> s.info[b].nChainTx == SumTx(s, b)
    decreases b.nHeight
  {
    hide GetSkipHeight;
    ParentIsNode(s.info.Keys, b);
    if b.pprev != null {
      ChainTxIsSum(s, b.pprev);
    }
  }

  /** Blocks linked while the program runs are told apart by their sequence numbers. */
  lemma SequenceNumbersDiffer(s: Tree, a: BlockIndex, b: BlockIndex)
    requires SequenceOk(s) && a in s.info && b in s.info && s.info[a].nSequenceId == s.info[b].nSequenceId != 0
    ensures a == b
  {
  }

  // ---------- Headers ----------

  function WithHeader(s: Tree, b: BlockIndex): Tree {
    s.(info := s.info[b := NEW_HEADER], atAddress := s.atAddress[b.address := b])
  }

  lemma HeaderKeepsTree(s: Tree, b: BlockIndex)
    requires TreeOk(s) && b !in s.info && b.Rooted() && b.pprev != null && b.pprev in s.info
    ensures TreeOk(WithHeader(s, b))
  {
    hide GetSkipHeight;
    TreeGrows(s.info.Keys, b);
    assert WithHeader(s, b).info.Keys == s.info.Keys + {b};
  }

  lemma HeaderKeepsLinks(s: Tree, b: BlockIndex)
    requires LinkOk(s) && b !in s.info && b.pprev != null && b.pprev in s.info
    ensures LinkOk(WithHeader(s, b))
  {
    assert !s.Waits(b);
  }

  lemma HeaderKeepsCandidates(s: Tree, b: BlockIndex)
    requires TreeOk(s) && ChainOk(s) && CandidatesLinked(s, s.Tip()) && CandidatesComplete(s, s.Tip())
    requires b !in s.info && b.Rooted() && b.pprev != null && b.pprev in s.info
    ensures TreeOk(WithHeader(s, b)) && ChainOk(WithHeader(s, b))
    ensures CandidatesLinked(WithHeader(s, b), s.Tip()) && CandidatesComplete(WithHeader(s, b), s.Tip())
  {
    hide GetSkipHeight, Blocked, IsPath, Less, Tree.Failed, WithHeader;
    HeaderKeepsTree(s, b);
    WithHeaderIs(s, b);
  }

  lemma WithHeaderIs(s: Tree, b: BlockIndex)
    requires b !in s.info
    ensures var z := WithHeader(s, b);
            && z.Failed() == s.Failed() && z.chain == s.chain && z.candidates == s.candidates
            && z.info.Keys == s.info.Keys + {b} && z.info[b] == NEW_HEADER
            && (forall x :: x in s.info ==> z.info[x] == s.info[x])
            && forall x, y :: Less(z, x, y) == Less(s, x, y)
  {
    assert WithHeader(s, b).Failed() == s.Failed();
  }

  lemma HeaderKeepsStatus(s: Tree, b: BlockIndex)
    requires TreeOk(s) && ChainOk(s) && StatusOk(s) && b !in s.info && b.pprev != null && b.pprev in s.info
    requires TreeOk(WithHeader(s, b))
    ensures StatusOk(WithHeader(s, b))
  {
    hide GetSkipHeight, Blocked, IsPath, TreeOk;
    assert FoundInvalid(WithHeader(s, b)) == FoundInvalid(s);
  }

  /** A new header changes nothing about the other blocks. */
  lemma HeaderKeepsValid(s: Tree, b: BlockIndex)
    requires Valid(s) && b !in s.info && b.Rooted() && b.pprev != null && b.pprev in s.info && b.address !in s.atAddress
    ensures Valid(WithHeader(s, b))
  {
    hide TreeOk, LinkOk, ChainOk, CandidatesLinked, CandidatesComplete, StatusOk;
    HeaderKeepsLinks(s, b);
    HeaderKeepsCandidates(s, b);
    HeaderKeepsStatus(s, b);
  }

  lemma Rooted(s: Tree)
    requires Valid(s)
    ensures forall b :: b in s.info ==> b.Rooted()
  {
  }

  /** The entry of a hash, which is made if there is none. */
  method AddToBlockIndex(t: BlockTree, hash: nat, prev: BlockIndex, proof: nat, address: nat) returns (b: BlockIndex)
    requires Valid(t.View()) && prev in t.nodes && proof > 0 && address !in t.atAddress
    modifies t
    ensures Valid(t.View()) && b in t.nodes && b.hash == hash
    ensures if exists x :: x in old(t.nodes) && x.hash == hash then t.View() == old(t.View())
            else b.pprev == prev && b.nChainWork == prev.nChainWork + proof && t.View() == WithHeader(old(t.View()), b)
  {
    hide Valid, GetSkipHeight;
    if exists x :: x in t.nodes && x.hash == hash {
      b :| b in t.nodes && b.hash == hash;
      return;
    }
    ghost var s := t.View();
    Rooted(s);
    b := new BlockIndex(hash, prev, proof, address);
    HeaderKeepsValid(s, b);
    t.nodes := t.nodes + {b};
    t.atAddress := t.atAddress[address := b];
    assert t.View().info == WithHeader(s, b).info;
  }

  // ---------- Data ----------

  /** The data of a block have come. */
  function WithData(s: Tree, b: BlockIndex, nTx: nat): Tree
    requires b in s.info
  {
    var i := s.info[b];
    s.(info := s.info[b := i.(nTx := nTx, nChainTx := 0, haveData := true,
                              validity := if !i.Failed() && i.validity < VALID_TRANSACTIONS then VALID_TRANSACTIONS
                                else i.validity)])
  }

  function Waiting(s: Tree, p: BlockIndex, b: BlockIndex): Tree {
    s.(unlinked := s.unlinked[p := s.Range(p) + [b]])
  }

  function Counted(s: Tree, p: BlockIndex): Tree
    requires p in s.info
  {
    var count := (if p.pprev == null then 0 else s.Of(p.pprev).nChainTx) + s.info[p].nTx;
    s.(info := s.info[p := s.info[p].(nChainTx := count, nSequenceId := s.nextId)], nextId := s.nextId + 1,
       received := s.received[s.nextId := p])
  }

  /** Links a block whose ancestors are all linked; its waiting children are next. */
  function LinkOne(s: Tree, p: BlockIndex): Tree
    requires p in s.info
  {
    var c := Counted(s, p);
    c.(candidates := if c.Tip() == null || !Less(c, p, c.Tip()) then c.candidates + {p} else c.candidates,
       unlinked := c.unlinked - {p})
  }

  /** The invariant while some blocks are queued to be linked. */
  ghost predicate Linking(s: Tree, queue: seq<BlockIndex>) {
    && Once(queue) && (forall q :: q in queue ==> q in s.info)
    && TreeOk(s) && PlacesOk(s) && DataOk(s) && ChainTxOk(s, queue) && UnlinkedOk(s, queue) && SequenceOk(s)
    && ChainOk(s)
    && CandidatesLinked(s, s.Tip()) && CandidatesComplete(s, s.Tip()) && StatusOk(s)
  }

  lemma NextQueued(queue: seq<BlockIndex>, more: seq<BlockIndex>)
    requires queue != [] && Once(queue) && Once(more) && forall b :: b in more ==> b !in queue
    ensures Once(queue[1..] + more) && queue[0] !in queue[1..] + more
    ensures forall b :: b in queue[1..] + more <==> (b in queue && b != queue[0]) || b in more
  {
    var next := queue[1..] + more;
    assert queue == [queue[0]] + queue[1..];
    forall k | 0 <= k < |next|
      ensures next[k] !in next[..k]
    {
      if k < |queue| - 1 {
        assert next[k] == queue[k + 1] && next[..k] == queue[1..k + 1];
        assert queue[..k + 1] == [queue[0]] + queue[1..k + 1];
        assert queue[k + 1] !in queue[..k + 1];
      } else {
        var j := k - (|queue| - 1);
        assert next[k] == more[j] && next[..k] == queue[1..] + more[..j];
        assert more[j] in more && more[j] !in more[..j];
      }
    }
    assert forall k :: 1 <= k < |queue| ==> queue[0] in queue[..k];
  }

  lemma LinkOneCounts(s: Tree, queue: seq<BlockIndex>, next: seq<BlockIndex>)
    requires queue != [] && queue[0] in s.info && DataOk(s) && ChainTxOk(s, queue) && UnlinkedOk(s, queue)
    requires queue[0] !in next && forall b :: b in next <==> (b in queue && b != queue[0]) || b in s.Range(queue[0])
    ensures DataOk(LinkOne(s, queue[0])) && ChainTxOk(LinkOne(s, queue[0]), next)
  {
    var p := queue[0];
    var z := LinkOne(s, p);
    forall b | b in z.info
      ensures z.info[b].nChainTx == (if b in next then 0 else Due(z, b)) && (b in next ==> Due(z, b) != 0)
    {
      assert b != p ==> z.info[b] == s.info[b];
      if b.pprev == p && b != p {
        assert s.Waits(b) <==> b in s.Range(p);
        assert s.info[p].nChainTx == 0 && z.info[p].nChainTx > 0;
      }
    }
  }

  lemma LinkOneWaits(s: Tree, queue: seq<BlockIndex>, next: seq<BlockIndex>)
    requires queue != [] && queue[0] in s.info && DataOk(s) && ChainTxOk(s, queue) && UnlinkedOk(s, queue)
    requires queue[0] !in next && forall b :: b in next <==> (b in queue && b != queue[0]) || b in s.Range(queue[0])
    ensures UnlinkedOk(LinkOne(s, queue[0]), next)
  {
    var p := queue[0];
    var z := LinkOne(s, p);
    forall b | b in z.info
      ensures z.Waits(b) <==> z.info[b].haveData && z.info[b].nChainTx == 0 && b !in next
    {
      assert b != p ==> z.info[b] == s.info[b];
      assert s.Waits(b) <==> s.info[b].haveData && s.info[b].nChainTx == 0 && b !in queue;
      assert b.pprev == p ==> !z.Waits(b);
      assert b.pprev != p ==> (z.Waits(b) <==> s.Waits(b)) && b !in s.Range(p);
    }
  }

  lemma LinkOneCandidates(s: Tree, p: BlockIndex)
    requires p in s.info && s.info[p].nChainTx == 0 && Counted(s, p).info[p].nChainTx > 0 && TreeOk(s) && ChainOk(s)
    requires CandidatesLinked(s, s.Tip()) && CandidatesComplete(s, s.Tip())
    ensures TreeOk(LinkOne(s, p)) && ChainOk(LinkOne(s, p))
    ensures CandidatesLinked(LinkOne(s, p), s.Tip()) && CandidatesComplete(LinkOne(s, p), s.Tip())
  {
    hide GetSkipHeight, Blocked, IsPath, LinkOne, Less, Tree.Failed;
    LinkOneIs(s, p);
  }

  /** What linking a block changes that candidates depend on. */
  lemma LinkOneIs(s: Tree, p: BlockIndex)
    requires p in s.info
    ensures var z := LinkOne(s, p);
            && z.info.Keys == s.info.Keys && z.Failed() == s.Failed() && z.chain == s.chain && z.genesis == s.genesis
            && (forall b :: b in s.info && b != p ==> z.info[b] == s.info[b]) && z.info[p] == Counted(s, p).info[p]
            && (forall a, b :: a != p && b != p ==> Less(z, a, b) == Less(s, a, b))
            && z.candidates == if z.Tip() == null || !Less(z, p, z.Tip()) then s.candidates + {p} else s.candidates
  {
    assert LinkOne(s, p).info.Keys == s.info.Keys;
    assert LinkOne(s, p).Failed() == s.Failed();
  }

  lemma LinkOneSequence(s: Tree, p: BlockIndex)
    requires p in s.info && s.info[p].nChainTx == 0 && Counted(s, p).info[p].nChainTx > 0 && SequenceOk(s)
             && PlacesOk(s)
    ensures SequenceOk(LinkOne(s, p)) && PlacesOk(LinkOne(s, p))
  {
  }

  lemma LinkOneHeads(s: Tree, queue: seq<BlockIndex>)
    requires queue != [] && (forall q :: q in queue ==> q in s.info) && ChainTxOk(s, queue) && UnlinkedOk(s, queue)
    ensures var p := queue[0];
            && p in s.info && s.info[p].nChainTx == 0 && Counted(s, p).info[p].nChainTx > 0
            && LinkOne(s, p).info.Keys == s.info.Keys && LinkOne(s, p).info[p] == Counted(s, p).info[p]
            && LinkOne(s, p).Tip() == s.Tip()
            && Once(s.Range(p)) && forall b :: b in s.Range(p) ==> b !in queue && b in s.info
  {
    assert forall b :: b in s.Range(queue[0]) ==> s.Waits(b);
  }

  /** Statuses do not depend on counts. */
  lemma SameStatusOk(s: Tree, z: Tree)
    requires TreeOk(s) && StatusOk(s) && z.info.Keys == s.info.Keys && z.chain == s.chain
    requires forall b :: b in s.info ==>
               && z.info[b].validity == s.info[b].validity && z.info[b].failedValid == s.info[b].failedValid
               && z.info[b].failedChild == s.info[b].failedChild && (z.info[b].nTx > 0 <==> s.info[b].nTx > 0)
    ensures StatusOk(z)
  {
    hide GetSkipHeight, Blocked;
    assert FoundInvalid(z) == FoundInvalid(s);
  }

  lemma LinkOneStatus(s: Tree, p: BlockIndex)
    requires TreeOk(s) && StatusOk(s) && p in s.info && TreeOk(LinkOne(s, p))
    ensures StatusOk(LinkOne(s, p))
  {
    hide GetSkipHeight, Blocked, TreeOk, StatusOk;
    SameStatusOk(s, LinkOne(s, p));
  }

  lemma LinkOneKeeps(s: Tree, queue: seq<BlockIndex>)
    requires queue != [] && Linking(s, queue)
    ensures Linking(LinkOne(s, queue[0]), queue[1..] + s.Range(queue[0]))
    ensures s.info[queue[0]].nChainTx == 0 && LinkOne(s, queue[0]).info[queue[0]].nChainTx > 0
  {
    hide GetSkipHeight, Blocked, IsPath, TreeOk, ChainOk, CandidatesLinked, CandidatesComplete, SequenceOk, PlacesOk,
      LinkOne, StatusOk;
    LinkOneHeads(s, queue);
    var p := queue[0];
    var next := queue[1..] + s.Range(p);
    NextQueued(queue, s.Range(p));
    LinkOneCounts(s, queue, next);
    LinkOneWaits(s, queue, next);
    LinkOneCandidates(s, p);
    LinkOneSequence(s, p);
    LinkOneStatus(s, p);
  }

  /** How many blocks are not linked; each step links one. */
  function ToLink(s: Tree): set<BlockIndex> { set b | b in s.info && s.info[b].nChainTx == 0 }

  lemma LinkOneShrinks(s: Tree, p: BlockIndex)
    requires p in s.info && s.info[p].nChainTx == 0 && LinkOne(s, p).info[p].nChainTx > 0
    ensures ToLink(LinkOne(s, p)) == ToLink(s) - {p} && |ToLink(LinkOne(s, p))| < |ToLink(s)|
  {
    assert p in ToLink(s);
  }

  /** Only blocks that were not linked have changed, and these only in being linked, after all others. */
  ghost predicate OnlyLinked(s: Tree, z: Tree) {
    && z.info.Keys == s.info.Keys && z.chain == s.chain && z.genesis == s.genesis && s.candidates <= z.candidates
    && s.nextId <= z.nextId
    && (forall b :: b in s.info && !s.Linked(b) && z.Linked(b) ==> z.info[b].nSequenceId >= s.nextId)
    && forall b :: b in s.info ==>
         z.info[b] == if s.info[b].nChainTx != 0 then s.info[b]
                      else s.info[b].(nChainTx := z.info[b].nChainTx, nSequenceId := z.info[b].nSequenceId)
  }

  lemma NoDataNotLinked(s: Tree, b: BlockIndex)
    requires ChainTxOk(s, []) && b in s.info && !s.info[b].haveData
    ensures s.info[b].nChainTx == 0
  {
  }

  lemma DataKeepsStatus(s: Tree, b: BlockIndex, nTx: nat)
    requires TreeOk(s) && DataOk(s) && StatusOk(s) && b in s.info && !s.info[b].haveData && !s.info[b].Failed()
             && nTx > 0
    requires TreeOk(WithData(s, b, nTx))
    ensures StatusOk(WithData(s, b, nTx))
  {
    hide GetSkipHeight, Blocked, TreeOk;
    assert FoundInvalid(WithData(s, b, nTx)) == FoundInvalid(s);
  }

  lemma DataQueued(s: Tree, b: BlockIndex, nTx: nat)
    requires Valid(s) && b in s.info && !s.info[b].haveData && !s.info[b].Failed() && nTx > 0
    requires b.pprev == null || s.Linked(b.pprev)
    ensures Linking(WithData(s, b, nTx), [b])
  {
    hide TreeOk, ChainOk, CandidatesLinked, CandidatesComplete, SequenceOk, ChainTxOk, UnlinkedOk, DataOk, StatusOk;
    NoDataNotLinked(s, b);
    DataKeepsRest(s, b, nTx);
    DataKeepsStatus(s, b, nTx);
    DataCounts(s, b, nTx, [b]);
    DataQueues(s, b, nTx);
    DataKeepsPlaces(s, b, nTx);
  }

  lemma DataKeepsPlaces(s: Tree, b: BlockIndex, nTx: nat)
    requires PlacesOk(s) && b in s.info
    ensures PlacesOk(WithData(s, b, nTx))
  {
  }

  lemma WaitingKeepsOrder(s: Tree, p: BlockIndex, b: BlockIndex)
    ensures forall x, y :: Less(Waiting(s, p, b), x, y) == Less(s, x, y)
  {
  }

  lemma WaitingKeepsRest(s: Tree, p: BlockIndex, b: BlockIndex)
    requires TreeOk(s) && PlacesOk(s) && DataOk(s) && ChainTxOk(s, []) && SequenceOk(s) && ChainOk(s)
    requires CandidatesLinked(s, s.Tip()) && CandidatesComplete(s, s.Tip())
    ensures var w := Waiting(s, p, b);
            && TreeOk(w) && PlacesOk(w) && DataOk(w) && ChainTxOk(w, []) && SequenceOk(w) && ChainOk(w)
            && CandidatesLinked(w, w.Tip()) && CandidatesComplete(w, w.Tip())
  {
    hide GetSkipHeight, Blocked, IsPath, Less;
    assert Waiting(s, p, b).Failed() == s.Failed();
    assert forall x, y :: Less(Waiting(s, p, b), x, y) == Less(s, x, y) by { WaitingKeepsOrder(s, p, b); }
  }

  lemma DataKeepsRest(s: Tree, b: BlockIndex, nTx: nat)
    requires TreeOk(s) && ChainOk(s) && CandidatesLinked(s, s.Tip()) && CandidatesComplete(s, s.Tip()) && SequenceOk(s)
    requires b in s.info && s.info[b].nChainTx == 0
    ensures var z := WithData(s, b, nTx);
            TreeOk(z) && ChainOk(z) && CandidatesLinked(z, z.Tip()) && CandidatesComplete(z, z.Tip()) && SequenceOk(z)
  {
    hide GetSkipHeight, Blocked, IsPath, Less, Tree.Failed, WithData;
    WithDataIs(s, b, nTx);
  }

  lemma WithDataIs(s: Tree, b: BlockIndex, nTx: nat)
    requires b in s.info && s.info[b].nChainTx == 0
    ensures var z := WithData(s, b, nTx);
            && z.Failed() == s.Failed() && z.chain == s.chain && z.genesis == s.genesis && z.candidates == s.candidates
            && z.nextId == s.nextId && z.received == s.received && z.info.Keys == s.info.Keys
            && (forall x :: x in s.info ==>
                z.info[x].nChainTx == s.info[x].nChainTx && z.info[x].nSequenceId == s.info[x].nSequenceId)
            && forall x, y :: Less(z, x, y) == Less(s, x, y)
  {
    var z := WithData(s, b, nTx);
    assert z.info.Keys == s.info.Keys;
    assert z.Failed() == s.Failed();
  }

  lemma DataCounts(s: Tree, b: BlockIndex, nTx: nat, queue: seq<BlockIndex>)
    requires DataOk(s) && ChainTxOk(s, []) && b in s.info && !s.info[b].haveData && nTx > 0
    requires queue == if b.pprev == null || s.Linked(b.pprev) then [b] else []
    ensures DataOk(WithData(s, b, nTx)) && ChainTxOk(WithData(s, b, nTx), queue)
  {
  }

  lemma DataQueues(s: Tree, b: BlockIndex, nTx: nat)
    requires ChainTxOk(s, []) && UnlinkedOk(s, []) && b in s.info && !s.info[b].haveData
    ensures UnlinkedOk(WithData(s, b, nTx), [b])
  {
  }

  lemma OnceMore(v: seq<BlockIndex>, b: BlockIndex)
    requires b !in v && (v == [] || Once(v))
    ensures Once(v + [b])
  {
    assert forall k :: 0 <= k < |v| ==> (v + [b])[..k] == v[..k];
    assert (v + [b])[..|v|] == v;
  }

  /** `w` is `s` with block `b` waiting for its parent `p`. */
  predicate NowWaits(s: Tree, w: Tree, p: BlockIndex, b: BlockIndex) {
    && b in s.info && b.pprev == p && w.info.Keys == s.info.Keys && w.info[b].haveData && w.info[b].nChainTx == 0
    && (forall x :: x in s.info && x != b ==> w.info[x] == s.info[x])
    && w.unlinked == s.unlinked[p := s.Range(p) + [b]]
  }

  lemma WaitingAreRight(s: Tree, w: Tree, p: BlockIndex, b: BlockIndex)
    requires NowWaits(s, w, p, b) && UnlinkedOk(s, [])
    ensures forall x :: x in w.info ==> (w.Waits(x) <==> w.info[x].haveData && w.info[x].nChainTx == 0)
  {
    hide Once;
    forall x | x in w.info
      ensures w.Waits(x) <==> w.info[x].haveData && w.info[x].nChainTx == 0
    {
      assert x != b ==> (w.Waits(x) <==> s.Waits(x));
    }
  }

  lemma WaitingAreChildren(s: Tree, w: Tree, p: BlockIndex, b: BlockIndex)
    requires NowWaits(s, w, p, b) && UnlinkedOk(s, []) && !s.Waits(b)
    ensures forall q :: q in w.unlinked ==> Once(w.unlinked[q])
    ensures forall q, x :: q in w.unlinked && x in w.unlinked[q] ==> x in w.info && x.pprev == q
  {
    hide Once;
    OnceMore(s.Range(p), b);
    forall q, x | q in w.unlinked && x in w.unlinked[q]
      ensures x in w.info && x.pprev == q
    {
      assert q != p || x != b ==> q in s.unlinked && x in s.unlinked[q];
    }
  }

  lemma DataWaits(s: Tree, b: BlockIndex, nTx: nat)
    requires ChainTxOk(s, []) && UnlinkedOk(s, []) && b in s.info && !s.info[b].haveData
    requires b.pprev != null && b.pprev in s.info
    ensures UnlinkedOk(Waiting(WithData(s, b, nTx), b.pprev, b), []) && !UnlinkedOk(WithData(s, b, nTx), [])
  {
    hide Once, ChainTxOk;
    var z := WithData(s, b, nTx);
    var w := Waiting(z, b.pprev, b);
    assert !s.Waits(b) && !z.Waits(b);
    assert NowWaits(s, w, b.pprev, b);
    WaitingAreRight(s, w, b.pprev, b);
    WaitingAreChildren(s, w, b.pprev, b);
  }

  /** Received out of order, a block has to wait for its parent. */
  lemma DataKeepsValid(s: Tree, b: BlockIndex, nTx: nat)
    requires Valid(s) && b in s.info && !s.info[b].haveData && !s.info[b].Failed() && nTx > 0
    requires b.pprev != null && !s.Linked(b.pprev)
    ensures b.pprev in s.info && s.info[b.pprev].validity >= VALID_TREE
    ensures Valid(Waiting(WithData(s, b, nTx), b.pprev, b)) && !Valid(WithData(s, b, nTx))
  {
    hide GetSkipHeight, TreeOk, ChainOk, CandidatesLinked, CandidatesComplete, SequenceOk, ChainTxOk, UnlinkedOk,
      DataOk, PlacesOk, StatusOk;
    ParentIsThere(s, b);
    HeadersAreValid(s, b.pprev);
    NoDataNotLinked(s, b);
    DataKeepsRest(s, b, nTx);
    DataKeepsStatus(s, b, nTx);
    DataCounts(s, b, nTx, []);
    DataWaits(s, b, nTx);
    DataKeepsPlaces(s, b, nTx);
    WaitingKeepsRest(WithData(s, b, nTx), b.pprev, b);
    SameStatusOk(WithData(s, b, nTx), Waiting(WithData(s, b, nTx), b.pprev, b));
  }

  lemma HeadersAreValid(s: Tree, b: BlockIndex)
    requires TreeOk(s) && StatusOk(s) && b in s.info
    ensures s.info[b].validity >= VALID_TREE
  {
  }

  lemma ParentIsThere(s: Tree, b: BlockIndex)
    requires TreeOk(s) && b in s.info
    ensures b.pprev != null ==> b.pprev in s.info
  {
    ParentIsNode(s.info.Keys, b);
  }

  lemma AllLinked(s: Tree)
    requires Linking(s, [])
    ensures Valid(s)
  {
  }

  /** Counts the transactions up to a block, and numbers it. */
  method Count(t: BlockTree, p: BlockIndex)
    requires p in t.nodes && (p.pprev != null ==> p.pprev in t.nodes)
    modifies t`nBlockSequenceId, t`received, p
    ensures t.View() == Counted(old(t.View()), p)
  {
    ghost var s := t.View();
    p.nChainTx := (if p.pprev == null then 0 else p.pprev.nChainTx) + p.nTx;
    p.nSequenceId := t.nBlockSequenceId;
    assert InfoOf(p) == Counted(s, p).info[p];
    t.received := t.received[t.nBlockSequenceId := p];
    t.nBlockSequenceId := t.nBlockSequenceId + 1;
    assert t.View().info == Counted(s, p).info;
  }

  lemma WorseIsLess(t: BlockTree, a: BlockIndex, b: BlockIndex)
    requires a in t.nodes && b in t.nodes
    ensures Worse(a, b) <==> Less(t.View(), a, b)
  {
  }

  method Offer(t: BlockTree, p: BlockIndex)
    modifies t`candidates
    ensures t.View() == old(t.View()).(candidates := old(t.candidates) + {p})
  {
    ghost var s := t.View();
    t.candidates := t.candidates + {p};
    assert t.View().info == s.info;
  }

  method TakeRange(t: BlockTree, p: BlockIndex) returns (children: seq<BlockIndex>)
    modifies t`unlinked
    ensures t.View() == old(t.View()).(unlinked := old(t.unlinked) - {p}) && children == old(t.View()).Range(p)
  {
    ghost var s := t.View();
    children := if p in t.unlinked then t.unlinked[p] else [];
    t.unlinked := t.unlinked - {p};
    assert t.View().info == s.info;
  }

  /** Links one block. */
  method LinkFirst(t: BlockTree, p: BlockIndex) returns (children: seq<BlockIndex>)
    requires p in t.nodes && (p.pprev != null ==> p.pprev in t.nodes)
             && (t.chain.Tip() != null ==> t.chain.Tip() in t.nodes)
    modifies t`candidates, t`unlinked, t`nBlockSequenceId, t`received, p
    ensures t.View() == LinkOne(old(t.View()), p) && children == old(t.View()).Range(p)
  {
    hide Counted, Less, Worse;
    ghost var s := t.View();
    Count(t, p);
    CountedKeeps(s, p);
    var tip := t.chain.Tip();
    if tip != null {
      WorseIsLess(t, p, tip);
    }
    if tip == null || !Worse(p, tip) {
      Offer(t, p);
    }
    children := TakeRange(t, p);
  }

  lemma CountedKeeps(s: Tree, p: BlockIndex)
    requires p in s.info
    ensures Counted(s, p).unlinked == s.unlinked && Counted(s, p).candidates == s.candidates
            && Counted(s, p).chain == s.chain
  {
  }

  /** Links the queued blocks, and whatever was waiting for them. */
  method LinkQueued(t: BlockTree, first: BlockIndex)
    requires Linking(t.View(), [first])
    modifies t`candidates, t`unlinked, t`nBlockSequenceId, t`received, t.nodes
    ensures Valid(t.View()) && OnlyLinked(old(t.View()), t.View())
  {
    hide Linking, OnlyLinked, Valid, Less, LinkOne;
    ghost var s := t.View();
    var queue := [first];
    NothingLinkedYet(s);
    while queue != []
      invariant Linking(t.View(), queue) && OnlyLinked(s, t.View())
      decreases |ToLink(t.View())|
    {
      ghost var was := t.View();
      var p := queue[0];
      LinkingIsSound(was, queue);
      LinkOneKeeps(was, queue);
      LinkOneShrinks(was, p);
      LinksMore(s, was, p);
      var children := LinkFirst(t, p);
      queue := queue[1..] + children;
    }
    AllLinked(t.View());
  }

  lemma NothingLinkedYet(s: Tree)
    ensures OnlyLinked(s, s)
  {
  }

  lemma LinkingIsSound(s: Tree, queue: seq<BlockIndex>)
    requires Linking(s, queue) && queue != []
    ensures queue[0] in s.info && (queue[0].pprev != null ==> queue[0].pprev in s.info)
    ensures s.Tip() != null ==> s.Tip() in s.info
  {
    hide GetSkipHeight, Blocked, IsPath;
    ParentIsNode(s.info.Keys, queue[0]);
  }

  lemma LinksMore(s: Tree, z: Tree, p: BlockIndex)
    requires OnlyLinked(s, z) && p in z.info && z.info[p].nChainTx == 0
    ensures OnlyLinked(s, LinkOne(z, p))
  {
  }

  method EnterData(t: BlockTree, b: BlockIndex, nTx: nat)
    requires b in t.nodes
    modifies b
    ensures t.View() == WithData(old(t.View()), b, nTx)
  {
    ghost var s := t.View();
    b.nTx := nTx;
    b.nChainTx := 0;
    b.haveData := true;
    var raised := b.RaiseValidity(VALID_TRANSACTIONS);
    assert t.View().info == WithData(s, b, nTx).info;
  }

  /** The data of a block have been received and checked.  The block is linked, together with all blocks that only
      waited for it; or it waits for its parent.  Data of blocks known to be invalid, and of their children, are
      turned down before. */
  method ReceivedBlockTransactions(t: BlockTree, b: BlockIndex, nTx: nat)
    requires Valid(t.View()) && b in t.nodes && !b.haveData && nTx > 0
    requires !b.Failed() && (b.pprev != null ==> !b.pprev.Failed())
    modifies t`candidates, t`unlinked, t`nBlockSequenceId, t`received, t.nodes
    ensures Valid(t.View()) && LinkedLater(old(t.View()), t.View())
    ensures t.View().info.Keys == old(t.View()).info.Keys && t.View().chain == old(t.View()).chain
    ensures t.View().Of(b).haveData && t.View().Of(b).nTx == nTx
    ensures forall x :: x in t.nodes && x != b ==>
              t.View().Of(x).haveData == old(t.View()).Of(x).haveData && t.View().Of(x).nTx == old(t.View()).Of(x).nTx
  {
    hide Valid, OnlyLinked, Linking, GetSkipHeight, Less;
    ghost var s := t.View();
    ValidIsSound(s, b);
    EnterData(t, b, nTx);
    ghost var z := WithData(s, b, nTx);
    ValidHasLinks(s);
    if b.pprev == null || b.pprev.nChainTx != 0 {
      DataQueued(s, b, nTx);
      LinkQueued(t, b);
      OnlyLinkedKeepsData(z, t.View());
      DataLinksLater(s, b, nTx, t.View());
    } else {
      DataKeepsValid(s, b, nTx);
      if b.pprev.IsValid(VALID_TREE) {
        t.unlinked := t.unlinked[b.pprev := (if b.pprev in t.unlinked then t.unlinked[b.pprev] else []) + [b]];
        assert t.View().info == z.info;
        assert t.View() == Waiting(z, b.pprev, b);
      }
      NothingLinked(z, t.View());
      DataLinksLater(s, b, nTx, t.View());
    }
  }

  // ---------- Data that turn out to be wrong ----------

  function Rejected(s: Tree, b: BlockIndex): Tree
    requires b in s.info
  {
    s.(info := s.info[b := s.info[b].(failedValid := true)])
  }

  lemma {:induction false} RejectedDoesNotBlock(s: Tree, b: BlockIndex, x: BlockIndex)
    requires TreeOk(s) && LinkOk(s) && b in s.info && !s.info[b].haveData && x in s.info && s.Linked(x)
    requires Blocked(s.Failed() + {b}, x)
    ensures Blocked(s.Failed(), x)
    decreases x.nHeight
  {
    hide GetSkipHeight, UnlinkedOk, SequenceOk;
    ParentIsNode(s.info.Keys, x);
    if x !in s.Failed() {
      RejectedDoesNotBlock(s, b, x.pprev);
    }
  }

  lemma RejectedKeepsLinks(s: Tree, b: BlockIndex)
    requires TreeOk(s) && PlacesOk(s) && LinkOk(s) && b in s.info
    ensures FailsAt(s, Rejected(s, b), b)
    ensures var z := Rejected(s, b);
            && z.info.Keys == s.info.Keys && TreeOk(z) && PlacesOk(z) && LinkOk(z)
  {
    hide GetSkipHeight, LinkOk, TreeOk, PlacesOk;
    var z := Rejected(s, b);
    assert z.info.Keys == s.info.Keys;
    MarksKeepLinks(s, z);
  }

  lemma RejectedKeepsRest(s: Tree, b: BlockIndex)
    requires Valid(s) && b in s.info && !s.info[b].haveData
    requires var z := Rejected(s, b);
             && z.info.Keys == s.info.Keys && z.Failed() == s.Failed() + {b} && FoundInvalid(z) == FoundInvalid(s) + {b}
    ensures var z := Rejected(s, b);
            && ChainOk(z) && CandidatesLinked(z, z.Tip()) && CandidatesComplete(z, z.Tip())
  {
    hide GetSkipHeight, IsPath, LinkOk, PlacesOk, StatusOk;
    var z := Rejected(s, b);
    forall x | x in s.info && s.Linked(x)
      ensures Blocked(z.Failed(), x) <==> Blocked(s.Failed(), x)
    {
      if Blocked(z.Failed(), x) {
        RejectedDoesNotBlock(s, b, x);
      } else if Blocked(s.Failed(), x) {
        BlockedByMore(s.Failed(), z.Failed(), x);
      }
    }
    hide Blocked, Tree.Failed;
    assert forall x, y :: Less(z, x, y) == Less(s, x, y);
  }

  /** Since a block without data is not linked, finding it invalid makes no difference to candidates. */
  lemma RejectedKeepsValid(s: Tree, b: BlockIndex)
    requires Valid(s) && b in s.info && !s.info[b].haveData
    ensures Valid(Rejected(s, b))
  {
    hide GetSkipHeight, ChainOk, CandidatesLinked, CandidatesComplete, LinkOk, PlacesOk, StatusOk, Rejected;
    RejectedKeepsLinks(s, b);
    RejectedKeepsRest(s, b);
    FailingKeepsStatus(s, Rejected(s, b), b);
  }

  /** The data of a block have been received, but they are wrong. */
  method RejectBlock(t: BlockTree, b: BlockIndex)
    requires Valid(t.View()) && b in t.nodes && !b.haveData
    modifies b`failedValid
    ensures Valid(t.View()) && t.View() == Rejected(old(t.View()), b)
  {
    hide Valid, GetSkipHeight;
    ghost var s := t.View();
    RejectedKeepsValid(s, b);
    b.failedValid := true;
    assert t.View().info == Rejected(s, b).info;
  }

  lemma ValidIsSound(s: Tree, b: BlockIndex)
    requires Valid(s) && b in s.info
    ensures b.pprev != null ==> b.pprev in s.info && b.pprev != b
    ensures s.Tip() != null ==> s.Tip() in s.info
  {
    hide GetSkipHeight;
    ParentIsThere(s, b);
  }

  /** Blocks that were linked have not changed, nor has what is known to be invalid; those linked since have a
      sequence number that is higher than any before. */
  ghost predicate LinkedLater(s: Tree, z: Tree) {
    && z.info.Keys == s.info.Keys && z.chain == s.chain && z.Failed() == s.Failed()
    && forall b :: b in s.info ==>
         && (s.Linked(b) ==> z.info[b] == s.info[b])
         && (!s.Linked(b) && z.Linked(b) ==> forall x :: x in s.info ==> z.info[b].nSequenceId > s.info[x].nSequenceId)
  }

  lemma ValidHasLinks(s: Tree)
    requires Valid(s)
    ensures ChainTxOk(s, []) && SequenceOk(s)
  {
  }

  lemma NothingLinked(s: Tree, z: Tree)
    requires z.info == s.info && z.chain == s.chain && z.genesis == s.genesis && z.candidates == s.candidates
    requires z.nextId == s.nextId
    ensures OnlyLinked(s, z)
  {
  }

  lemma DataLinksLater(s: Tree, b: BlockIndex, nTx: nat, z: Tree)
    requires ChainTxOk(s, []) && SequenceOk(s) && b in s.info && !s.info[b].haveData
    requires OnlyLinked(WithData(s, b, nTx), z)
    ensures LinkedLater(s, z)
  {
    hide ChainTxOk;
    NoDataNotLinked(s, b);
    var y := WithData(s, b, nTx);
    assert y.info.Keys == s.info.Keys;
    assert z.Failed() == s.Failed();
    assert forall x :: x in s.info ==> s.info[x].nSequenceId < s.nextId;
  }

  lemma OnlyLinkedKeepsData(s: Tree, z: Tree)
    requires OnlyLinked(s, z)
    ensures z.info.Keys == s.info.Keys && z.chain == s.chain
    ensures forall b :: b in s.info ==> z.info[b].haveData == s.info[b].haveData && z.info[b].nTx == s.info[b].nTx
  {
  }
}
