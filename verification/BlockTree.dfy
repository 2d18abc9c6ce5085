/** The block tree as a whole: what is known of each entry, which of them may become the tip, and which wait for
    the data of an ancestor. */
module BlockTrees {
  import opened BlockIndexes
  import opened ActiveChain

  // ---------- The tree as a value ----------

  /** The fields of an entry that change. */
  datatype Info = Info(validity: nat, haveData: bool, failedValid: bool, failedChild: bool, nTx: nat, nChainTx: nat,
                       nSequenceId: nat) {
    predicate Failed() { failedValid || failedChild }

    predicate IsValid(upTo: nat) { !Failed() && validity >= upTo }
  }

  const NEW_HEADER: Info := Info(VALID_TREE, false, false, false, 0, 0, 0)

  /** `unlinked` has the children of each block that have data while the block, or one of its ancestors, has not.
      `atAddress` and `received` tell where entries are in memory, and which one has a sequence number. */
  datatype Tree = Tree(info: map<BlockIndex, Info>, candidates: set<BlockIndex>,
                       unlinked: map<BlockIndex, seq<BlockIndex>>,
                       nextId: nat, chain: seq<BlockIndex?>, genesis: BlockIndex,
                       atAddress: map<nat, BlockIndex>, received: map<nat, BlockIndex>) {
    function Tip(): BlockIndex? { if chain == [] then null else chain[|chain| - 1] }

    function Range(p: BlockIndex): seq<BlockIndex> { if p in unlinked then unlinked[p] else [] }

    function Of(b: BlockIndex): Info { if b in info then info[b] else NEW_HEADER }

    predicate Linked(b: BlockIndex) { Of(b).nChainTx != 0 }

    predicate Waits(b: BlockIndex) { b.pprev != null && b in Range(b.pprev) }

    function Failed(): set<BlockIndex> { set b | b in info && info[b].Failed() }
  }

  /** Whether `a` is a worse tip than `b`: less work, or received later, or at a higher address. */
  predicate Less(s: Tree, a: BlockIndex, b: BlockIndex) {
    if a.nChainWork != b.nChainWork then a.nChainWork < b.nChainWork
    else if s.Of(a).nSequenceId != s.Of(b).nSequenceId then s.Of(a).nSequenceId > s.Of(b).nSequenceId
    else a.address > b.address
  }

  predicate Below(s: Tree, a: BlockIndex, b: BlockIndex?) { b != null && Less(s, a, b) }

  /** The block or one of its ancestors is among these. */
  ghost predicate Blocked(bad: set<BlockIndex>, b: BlockIndex)
    requires b.Rooted()
    decreases b.nHeight
  {
    b in bad || (b.pprev != null && Blocked(bad, b.pprev))
  }

  lemma {:induction false} BlockedByAncestor(bad: set<BlockIndex>, a: BlockIndex, b: BlockIndex)
    requires b.Rooted() && IsAncestor(a, b) && Blocked(bad, a)
    ensures Blocked(bad, b)
    decreases b.nHeight
  {
    hide GetSkipHeight;
    if a != b {
      BlockedByAncestor(bad, a, b.pprev);
    }
  }

  /** Marking more blocks makes no difference to who is blocked if they were blocked anyway. */
  lemma {:induction false} MarkingBlocked(bad: set<BlockIndex>, more: set<BlockIndex>, b: BlockIndex)
    requires b.Rooted() && bad <= more && forall x :: x in more ==> x.Rooted() && Blocked(bad, x)
    ensures Blocked(more, b) <==> Blocked(bad, b)
    decreases b.nHeight
  {
    hide GetSkipHeight;
    if b.pprev != null {
      MarkingBlocked(bad, more, b.pprev);
    }
  }

  lemma {:induction false} BlockedByMore(bad: set<BlockIndex>, more: set<BlockIndex>, b: BlockIndex)
    requires b.Rooted() && bad <= more && Blocked(bad, b)
    ensures Blocked(more, b)
    decreases b.nHeight
  {
    hide GetSkipHeight;
    if b !in bad {
      BlockedByMore(bad, more, b.pprev);
    }
  }

  // ---------- The order of tips ----------

  /** Any two different entries are in order, since no two are at the same address. */
  lemma LessIsTotal(s: Tree, a: BlockIndex, b: BlockIndex)
    requires PlacesOk(s) && a in s.info && b in s.info && a != b
    ensures Less(s, a, b) || Less(s, b, a)
  {
  }

  // ---------- Invariants ----------

  /** One tree, whose blocks all descend from genesis. */
  ghost predicate TreeOk(s: Tree) {
    IsTree(s.info.Keys) && forall b :: b in s.info ==> Ancestor(b, 0) == s.genesis
  }

  predicate PlacesOk(s: Tree) {
    forall b :: b in s.info ==> b.address in s.atAddress && s.atAddress[b.address] == b
  }

  /** The transactions in the chain up to a block, as far as this can be told from the block and its parent. */
  function Due(s: Tree, b: BlockIndex): nat {
    if s.Of(b).haveData && (b.pprev == null || s.Linked(b.pprev))
    then s.Of(b).nTx + if b.pprev == null then 0 else s.Of(b.pprev).nChainTx
    else 0
  }

  predicate DataOk(s: Tree) {
    forall b :: b in s.info ==> (s.info[b].nTx > 0 <==> s.info[b].haveData)
  }

  /** Transactions are counted for all blocks that are due, except those still queued. */
  predicate ChainTxOk(s: Tree, queued: seq<BlockIndex>) {
    forall b :: b in s.info ==>
      s.info[b].nChainTx == (if b in queued then 0 else Due(s, b)) && (b in queued ==> Due(s, b) != 0)
  }

  /** No block occurs twice. */
  predicate Once(v: seq<BlockIndex>) { forall k :: 0 <= k < |v| ==> v[k] !in v[..k] }

  /** Exactly the blocks with data that are not linked wait, each once. */
  predicate UnlinkedOk(s: Tree, queued: seq<BlockIndex>) {
    && (forall b :: b in s.info ==> (s.Waits(b) <==> s.info[b].haveData && s.info[b].nChainTx == 0 && b !in queued))
    && (forall p :: p in s.unlinked ==> Once(s.unlinked[p]))
    && forall p, b :: p in s.unlinked && b in s.unlinked[p] ==> b in s.info && b.pprev == p
  }

  /** Only linked blocks have sequence numbers, and all of these differ. */
  predicate SequenceOk(s: Tree) {
    && s.nextId > 0
    && forall b :: b in s.info && s.info[b].nSequenceId != 0 ==>
         var id := s.info[b].nSequenceId;
         id < s.nextId && s.info[b].nChainTx != 0 && id in s.received && s.received[id] == b
  }

  predicate LinkOk(s: Tree) { DataOk(s) && ChainTxOk(s, []) && UnlinkedOk(s, []) && SequenceOk(s) }

  /** The candidates are linked and no worse than `best`. */
  predicate CandidatesLinked(s: Tree, best: BlockIndex?) {
    forall c :: c in s.candidates ==> c in s.info && s.info[c].nChainTx != 0 && !Below(s, c, best)
  }

  /** All linked blocks no worse than `best` and not known to be invalid are candidates. */
  ghost predicate CandidatesComplete(s: Tree, best: BlockIndex?)
    requires IsTree(s.info.Keys)
  {
    forall b :: b in s.info && s.info[b].nChainTx != 0 && !Below(s, b, best) && !Blocked(s.Failed(), b) ==>
      b in s.candidates
  }

  /** The active chain leads through linked blocks not known to be invalid. */
  ghost predicate ChainOk(s: Tree)
    requires IsTree(s.info.Keys)
  {
    && IsPath(s.chain)
    && (s.Tip() != null ==> s.Tip() in s.info && s.Linked(s.Tip()) && !Blocked(s.Failed(), s.Tip()))
  }

  /** The blocks in which an error was found, without those that only descend from one. */
  function FoundInvalid(s: Tree): set<BlockIndex> { set b | b in s.info && s.info[b].failedValid }

  /** Whether a block has once been connected, as far as this is noted: of genesis it never is. */
  predicate Checked(s: Tree, b: BlockIndex?) { b == null || b.pprev == null || s.Of(b).validity >= VALID_SCRIPTS }

  /** All headers are valid, blocks are valid exactly if their transactions are there, and only blocks whose parents
      have been connected are valid beyond that. */
  predicate ValidityOk(s: Tree) {
    && Checked(s, s.Tip())
    && forall b :: b in s.info ==>
         && s.info[b].validity >= VALID_TREE && (s.info[b].validity >= VALID_TRANSACTIONS <==> s.info[b].nTx > 0)
         && (s.info[b].validity >= VALID_CHAIN ==> Checked(s, b.pprev))
  }

  /** Only descendants of invalid blocks are marked as such. */
  ghost predicate MarksOk(s: Tree)
    requires IsTree(s.info.Keys)
  {
    forall b :: b in s.info && s.info[b].failedChild ==> Blocked(FoundInvalid(s), b)
  }

  ghost predicate StatusOk(s: Tree)
    requires IsTree(s.info.Keys)
  {
    ValidityOk(s) && MarksOk(s)
  }

  ghost predicate Valid(s: Tree) {
    && TreeOk(s) && PlacesOk(s) && LinkOk(s) && ChainOk(s) && StatusOk(s)
    && CandidatesLinked(s, s.Tip()) && CandidatesComplete(s, s.Tip())
  }

  /** A failed block descends from an invalid one. */
  lemma FailedIsBelowInvalid(s: Tree, b: BlockIndex)
    requires TreeOk(s) && StatusOk(s) && b in s.info
    ensures Blocked(s.Failed(), b) <==> Blocked(FoundInvalid(s), b)
  {
    hide GetSkipHeight;
    assert forall x :: x in FoundInvalid(s) ==> x in s.Failed();
    forall x | x in s.Failed()
      ensures Blocked(FoundInvalid(s), x)
    {
      assert x in s.info;
    }
    MarkingBlocked(FoundInvalid(s), s.Failed(), b);
  }

  // ---------- Changes of status ----------

  /** Only the status of blocks, and the candidates, differ. */
  ghost predicate SameButMarks(s: Tree, z: Tree) {
    && z == s.(info := z.info, candidates := z.candidates) && z.info.Keys == s.info.Keys
    && forall b :: b in s.info ==>
         z.info[b] == s.info[b].(validity := z.info[b].validity, failedValid := z.info[b].failedValid,
                                 failedChild := z.info[b].failedChild)
  }

  lemma MarksKeepCounts(s: Tree, z: Tree)
    requires TreeOk(s) && SameButMarks(s, z) && DataOk(s) && ChainTxOk(s, []) && SequenceOk(s)
    ensures DataOk(z) && ChainTxOk(z, []) && SequenceOk(z)
  {
    hide GetSkipHeight;
    forall b | b in s.info
      ensures Due(z, b) == Due(s, b)
    {
      ParentIsNode(s.info.Keys, b);
    }
  }

  lemma MarksKeepWaiting(s: Tree, z: Tree)
    requires SameButMarks(s, z) && UnlinkedOk(s, [])
    ensures UnlinkedOk(z, [])
  {
    assert forall b :: z.Waits(b) == s.Waits(b);
  }

  lemma MarksKeepLinks(s: Tree, z: Tree)
    requires TreeOk(s) && PlacesOk(s) && LinkOk(s) && SameButMarks(s, z)
    ensures TreeOk(z) && PlacesOk(z) && LinkOk(z)
  {
    hide GetSkipHeight, DataOk, ChainTxOk, SequenceOk, UnlinkedOk;
    MarksKeepCounts(s, z);
    MarksKeepWaiting(s, z);
  }

  /** An error has been found in block `b`. */
  ghost predicate FailsAt(s: Tree, z: Tree, b: BlockIndex) {
    && b in s.info && z.info == s.info[b := s.info[b].(failedValid := true)] && z.chain == s.chain
    && z.Failed() == s.Failed() + {b} && FoundInvalid(z) == FoundInvalid(s) + {b}
  }

  lemma FailingKeepsStatus(s: Tree, z: Tree, b: BlockIndex)
    requires TreeOk(s) && StatusOk(s) && FailsAt(s, z, b) && TreeOk(z)
    ensures StatusOk(z)
  {
    hide GetSkipHeight, FoundInvalid, IsTree, Tree.Failed;
    FailingKeepsMarks(s, z, b);
    hide Blocked;
  }

  lemma FailingKeepsMarks(s: Tree, z: Tree, b: BlockIndex)
    requires IsTree(s.info.Keys) && MarksOk(s) && FailsAt(s, z, b) && IsTree(z.info.Keys)
    ensures MarksOk(z)
  {
    hide GetSkipHeight, FoundInvalid, Tree.Failed;
    forall x | x in s.info && s.info[x].failedChild
      ensures x.Rooted() && Blocked(FoundInvalid(z), x)
    {
      BlockedByMore(FoundInvalid(s), FoundInvalid(z), x);
    }
    hide Blocked;
  }

  // ---------- The tree itself ----------

  ghost function InfoOf(b: BlockIndex): Info
    reads b
  {
    Info(b.validity, b.haveData, b.failedValid, b.failedChild, b.nTx, b.nChainTx, b.nSequenceId)
  }

  /** The comparison as it is made between entries in memory. */
  predicate Worse(a: BlockIndex, b: BlockIndex)
    reads a, b
  {
    if a.nChainWork != b.nChainWork then a.nChainWork < b.nChainWork
    else if a.nSequenceId != b.nSequenceId then a.nSequenceId > b.nSequenceId
    else a.address > b.address
  }

  class BlockTree {
    var nodes: set<BlockIndex>
    var candidates: set<BlockIndex>
    var unlinked: map<BlockIndex, seq<BlockIndex>>
    var nBlockSequenceId: nat
    const chain: Chain
    ghost const genesis: BlockIndex
    ghost var atAddress: map<nat, BlockIndex>
    ghost var received: map<nat, BlockIndex>
    /** All blocks that have been the tip. */
    ghost var tips: set<BlockIndex>

    ghost function View(): Tree
      reads this, nodes, chain
    {
      Tree(map b | b in nodes :: InfoOf(b), candidates, unlinked, nBlockSequenceId, chain.vChain, genesis, atAddress,
           received)
    }

    /** A tree of the genesis block alone. */
    constructor (g: BlockIndex)
      requires g.Rooted() && g.pprev == null && InfoOf(g) == NEW_HEADER
      ensures Valid(View()) && nodes == {g} && chain.vChain == [] && fresh(chain) && genesis == g && tips == {}
    {
      nodes, candidates, unlinked, nBlockSequenceId, genesis := {g}, {}, map[], 1, g;
      atAddress, received, tips := map[g.address := g], map[], {};
      chain := new Chain();
    }
  }
}
