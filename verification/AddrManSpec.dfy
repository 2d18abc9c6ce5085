/** The address manager's tables as a value, the operations as functions on that value, and the
    invariant that every operation keeps.  The class in AddrMan.dfy changes the tables in place and
    is proved to compute these functions.

    Hash functions are parameters, random numbers are arguments of the operations, and the adjusted
    time is an argument of the operations that read it. */
module AddrManSpec {
  import opened Common

  const TRIED_BUCKET_COUNT: nat := 256
  const NEW_BUCKET_COUNT: nat := 1024
  const BUCKET_SIZE: nat := 64
  const NEW_BUCKETS_PER_ADDRESS: nat := 8
  const HORIZON_DAYS: nat := 30
  const RETRIES: nat := 3
  const MAX_FAILURES: nat := 10
  const MIN_FAIL_DAYS: nat := 7
  const GETADDR_MAX_PCT: nat := 23
  const GETADDR_MAX: nat := 2500
  const DAY: nat := 24 * 60 * 60

  // ---------- Entities ----------

  datatype NetAddr = NetAddr(ip: nat)
  datatype Service = Service(net: NetAddr, port: nat)
  datatype Address = Address(service: Service, services: set<nat>, time: nat)

  datatype AddrInfo = AddrInfo(service: Service, services: set<nat>, time: nat, lastTry: int,
                               source: NetAddr, lastSuccess: int, attempts: int,
                               refCount: int, inTried: bool, randomPos: int)

  type TriedIndex = b: nat | b < TRIED_BUCKET_COUNT
  type NewIndex = b: nat | b < NEW_BUCKET_COUNT
  type SlotIndex = i: nat | i < BUCKET_SIZE

  /** The keyed hashes, reduced to bucket numbers and positions; nothing else is known of them. */
  datatype Hasher = Hasher(triedBucket: (int, Service) -> TriedIndex,
                           newBucket: (int, Service, NetAddr) -> NewIndex,
                           position: (int, bool, nat, Service) -> SlotIndex)

  /** A two-dimensional table of ids; -1 marks a free slot. */
  type Table = seq<seq<int>>

  predicate Dims(t: Table, buckets: nat) {
    |t| == buckets && forall b :: 0 <= b < |t| ==> |t[b]| == BUCKET_SIZE
  }

  function Put(t: Table, b: nat, i: nat, id: int): (r: Table)
    requires b < |t| && i < |t[b]|
  {
    t[b := t[b][i := id]]
  }

  datatype State = State(hasher: Hasher, key: int, idCount: int, info: map<int, AddrInfo>,
                         ids: map<NetAddr, int>, random: seq<int>,
                         nTried: int, tried: Table, nNew: int, newTable: Table)
  {
    function NewPos(id: int, bucket: nat): SlotIndex
      requires id in info
    {
      hasher.position(key, true, bucket, info[id].service)
    }

    function TriedBucketOf(id: int): TriedIndex
      requires id in info
    {
      hasher.triedBucket(key, info[id].service)
    }

    function TriedPosOf(id: int): SlotIndex
      requires id in info
    {
      hasher.position(key, false, TriedBucketOf(id), info[id].service)
    }

    function WithInfo(id: int, i: AddrInfo): State { this.(info := info[id := i]) }

    /** The new buckets that hold a reference to `id`. */
    ghost function Refs(id: int): set<int>
      requires id in info && Dims(newTable, NEW_BUCKET_COUNT)
    {
      set b | 0 <= b < NEW_BUCKET_COUNT && newTable[b][NewPos(id, b)] == id
    }

    ghost function NewIds(): set<int> { set id | id in info && !info[id].inTried }

    ghost function TriedIds(): set<int> { set id | id in info && info[id].inTried }
  }

  // ---------- The invariant ----------

  /** mapAddr is the exact inverse of mapInfo, and ids come from the counter. */
  ghost predicate IdsOk(s: State) {
    && 0 <= s.idCount
    && (forall id :: id in s.info ==> 0 <= id < s.idCount)
    && (forall id :: id in s.info ==> s.info[id].service.net in s.ids && s.ids[s.info[id].service.net] == id)
    && (forall a :: a in s.ids ==> s.ids[a] in s.info && s.info[s.ids[a]].service.net == a)
  }

  /** vRandom lists every id exactly once, and each entry knows its position. */
  ghost predicate RandomOk(s: State) {
    && (forall id :: id in s.info ==> 0 <= s.info[id].randomPos < |s.random| && s.random[s.info[id].randomPos] == id)
    && (forall i :: 0 <= i < |s.random| ==> s.random[i] in s.info && s.info[s.random[i]].randomPos == i)
  }

  /** Times are non-negative, and a tried entry has a success on record. */
  ghost predicate TimesOk(s: State) {
    forall id :: id in s.info ==> s.info[id].lastTry >= 0 && s.info[id].lastSuccess >= 0
                                  && (s.info[id].inTried ==> s.info[id].lastSuccess > 0)
  }

  /** The tried table holds exactly the tried entries, each at the one place its hash allows. */
  ghost predicate TriedOk(s: State) {
    && Dims(s.tried, TRIED_BUCKET_COUNT)
    && (forall b, i :: 0 <= b < TRIED_BUCKET_COUNT && 0 <= i < BUCKET_SIZE && s.tried[b][i] != -1 ==>
                         var id := s.tried[b][i];
                         id in s.info && s.info[id].inTried && s.TriedBucketOf(id) == b && s.TriedPosOf(id) == i)
    && (forall id :: id in s.info && s.info[id].inTried ==> s.tried[s.TriedBucketOf(id)][s.TriedPosOf(id)] == id)
  }

  /** The new table holds only untried entries, each at its own position of the bucket. */
  ghost predicate NewOk(s: State) {
    && Dims(s.newTable, NEW_BUCKET_COUNT)
    && (forall b, i :: 0 <= b < NEW_BUCKET_COUNT && 0 <= i < BUCKET_SIZE && s.newTable[b][i] != -1 ==>
                         var id := s.newTable[b][i];
                         id in s.info && !s.info[id].inTried && s.NewPos(id, b) == i)
  }

  /** Reference counts are the numbers of references; `pending` are the untried entries without any. */
  ghost predicate RefsOk(s: State, pending: set<int>)
    requires NewOk(s)
  {
    && (forall id {:trigger s.Refs(id)} :: id in s.info ==> s.info[id].refCount == |s.Refs(id)|)
    && (forall id :: id in s.info ==> s.info[id].refCount <= NEW_BUCKETS_PER_ADDRESS)
    && (forall id :: id in s.info && !s.info[id].inTried && s.info[id].refCount == 0 ==> id in pending)
    && (forall id :: id in pending ==> id in s.info && !s.info[id].inTried && s.info[id].refCount == 0)
  }

  /** The counters; `uncounted` untried entries are left out of nNew. */
  ghost predicate CountsOk(s: State, uncounted: int) {
    && |s.NewIds()| == s.nNew + uncounted
    && |s.TriedIds()| == s.nTried
  }

  /** All of it at once.  (Compared with `true` so that the verifier passes it around as one fact.) */
  ghost predicate Inv(s: State, pending: set<int>, uncounted: int) {
    true == (IdsOk(s) && RandomOk(s) && TimesOk(s) && TriedOk(s) && NewOk(s) && RefsOk(s, pending)
             && CountsOk(s, uncounted))
  }

  /** What holds between any two operations. */
  ghost predicate Consistent(s: State) { Inv(s, {}, 0) }

  // ---------- Building blocks ----------

  function SwapRandom(s: State, p: nat, q: nat): (t: State)
    requires p < |s.random| && q < |s.random|
    requires s.random[p] in s.info && s.random[q] in s.info
    ensures |t.random| == |s.random| && t.info.Keys == s.info.Keys
  {
    if p == q then s else
      var id1, id2 := s.random[p], s.random[q];
      var info1 := s.info[id1 := s.info[id1].(randomPos := q)];
      var info2 := info1[id2 := info1[id2].(randomPos := p)];
      s.(info := info2, random := s.random[p := id2][q := id1])
  }

  /** Forget entry `id`, which stands last in vRandom. */
  function DropLast(s: State, id: int): State
    requires id in s.info && |s.random| > 0
  {
    s.(random := s.random[..|s.random| - 1], ids := s.ids - {s.info[id].service.net}, info := s.info - {id},
       nNew := s.nNew - 1)
  }

  function Delete(s: State, id: int): State
    requires id in s.info && RandomOk(s)
  {
    DropLast(SwapRandom(s, s.info[id].randomPos, |s.random| - 1), id)
  }

  /** Taking the reference out of slot `i` of bucket `b`, before a possible deletion. */
  function Unref(s: State, b: nat, i: nat): State
    requires b < NEW_BUCKET_COUNT && i < BUCKET_SIZE && NewOk(s) && s.newTable[b][i] != -1
  {
    var id := s.newTable[b][i];
    s.WithInfo(id, s.info[id].(refCount := s.info[id].refCount - 1)).(newTable := Put(s.newTable, b, i, -1))
  }

  function ClearNew(s: State, b: nat, i: nat): State
    requires b < NEW_BUCKET_COUNT && i < BUCKET_SIZE && NewOk(s) && RandomOk(s)
  {
    var id := s.newTable[b][i];
    if id == -1 then s else
      var t := Unref(s, b, i);
      if t.info[id].refCount == 0 then Delete(t, id) else t
  }

  /** Enter `id` at its position of new bucket `b`. */
  function AddRef(s: State, id: int, b: nat): State
    requires id in s.info && b < NEW_BUCKET_COUNT && Dims(s.newTable, NEW_BUCKET_COUNT)
  {
    s.WithInfo(id, s.info[id].(refCount := s.info[id].refCount + 1))
     .(newTable := Put(s.newTable, b, s.NewPos(id, b), id))
  }

  lemma PutAt(t: Table, b: nat, i: nat, id: int, buckets: nat)
    requires Dims(t, buckets) && b < buckets && i < BUCKET_SIZE
    ensures Dims(Put(t, b, i, id), buckets)
    ensures forall c, j :: 0 <= c < buckets && 0 <= j < BUCKET_SIZE ==>
                             Put(t, b, i, id)[c][j] == if c == b && j == i then id else t[c][j]
  {
  }

  // ---------- Each building block keeps the invariant ----------

  /** `t` has the entries of `s` up to fields that no table depends on. */
  ghost predicate SamePlaces(s: State, t: State) {
    && t.hasher == s.hasher && t.key == s.key && t.info.Keys == s.info.Keys
    && (forall id :: id in s.info ==>
        t.info[id].service == s.info[id].service && t.info[id].inTried == s.info[id].inTried
                                      && t.info[id].refCount == s.info[id].refCount)
  }

  lemma SameEntriesSameIds(s: State, t: State)
    requires SamePlaces(s, t)
    ensures t.NewIds() == s.NewIds() && t.TriedIds() == s.TriedIds()
  {
    forall id ensures id in t.NewIds() <==> id in s.NewIds() {
      assert id in t.info.Keys <==> id in s.info.Keys;
    }
    forall id ensures id in t.TriedIds() <==> id in s.TriedIds() {
      assert id in t.info.Keys <==> id in s.info.Keys;
    }
  }

  lemma SamePlacesKeepsTables(s: State, t: State, pending: set<int>, uncounted: int)
    requires SamePlaces(s, t) && t.newTable == s.newTable && t.tried == s.tried && t.nNew == s.nNew
             && t.nTried == s.nTried
    requires TriedOk(s) && NewOk(s) && RefsOk(s, pending) && CountsOk(s, uncounted)
    ensures TriedOk(t) && NewOk(t) && RefsOk(t, pending) && CountsOk(t, uncounted)
  {
    SameEntriesSameIds(s, t);
    forall id ensures id in t.info <==> id in s.info {
      assert id in t.info.Keys <==> id in s.info.Keys;
    }
    assert NewOk(t);
    forall id | id in s.info
      ensures t.Refs(id) == s.Refs(id)
    {}
  }

  /** Where an id stands after positions `p` and `q` have been exchanged. */
  function SwappedPos(p: nat, q: nat, at: int): int {
    if at == p then q else if at == q then p else at
  }

  lemma SwapRandomMoves(s: State, p: nat, q: nat)
    requires RandomOk(s) && p < |s.random| && q < |s.random|
    ensures var t := SwapRandom(s, p, q);
            && t.info.Keys == s.info.Keys && |t.random| == |s.random|
            && (forall id :: id in s.info ==>
                t.info[id] == s.info[id].(randomPos := SwappedPos(p, q, s.info[id].randomPos)))
            && (forall i :: 0 <= i < |s.random| ==> t.random[i] == s.random[SwappedPos(p, q, i)])
  {
  }

  /** Entries that only moved within vRandom keep every list in order. */
  lemma MovedKeepsLists(s: State, t: State, p: nat, q: nat)
    requires IdsOk(s) && RandomOk(s) && TimesOk(s) && p < |s.random| && q < |s.random|
    requires t == s.(info := t.info, random := t.random) && t.info.Keys == s.info.Keys && |t.random| == |s.random|
    requires forall id :: id in s.info ==>
             t.info[id] == s.info[id].(randomPos := SwappedPos(p, q, s.info[id].randomPos))
    requires forall i :: 0 <= i < |s.random| ==> t.random[i] == s.random[SwappedPos(p, q, i)]
    ensures SamePlaces(s, t) && IdsOk(t) && RandomOk(t) && TimesOk(t)
  {
    forall id ensures id in t.info <==> id in s.info {
      assert id in t.info.Keys <==> id in s.info.Keys;
    }
  }

  lemma SwapRandomKeeps(s: State, p: nat, q: nat, pending: set<int>, uncounted: int)
    requires Inv(s, pending, uncounted) && p < |s.random| && q < |s.random|
    ensures Inv(SwapRandom(s, p, q), pending, uncounted)
    ensures SamePlaces(s, SwapRandom(s, p, q))
    ensures SwapRandom(s, p, q).info[s.random[p]].randomPos == q
  {
    SwapRandomMoves(s, p, q);
    MovedKeepsLists(s, SwapRandom(s, p, q), p, q);
    SamePlacesKeepsTables(s, SwapRandom(s, p, q), pending, uncounted);
  }

  lemma DropLastKeepsLists(s: State, id: int)
    requires IdsOk(s) && RandomOk(s) && TimesOk(s) && id in s.info && s.info[id].randomPos == |s.random| - 1
    ensures IdsOk(DropLast(s, id)) && RandomOk(DropLast(s, id)) && TimesOk(DropLast(s, id))
  {
  }

  lemma UnreferencedNowhere(s: State, id: int, pending: set<int>)
    requires NewOk(s) && RefsOk(s, pending) && id in pending
    ensures forall b, i :: 0 <= b < NEW_BUCKET_COUNT && 0 <= i < BUCKET_SIZE && s.newTable[b][i] != -1 ==>
            s.newTable[b][i] != id
  {
    assert s.Refs(id) == {};
    forall b, i | 0 <= b < NEW_BUCKET_COUNT && 0 <= i < BUCKET_SIZE && s.newTable[b][i] != -1
      ensures s.newTable[b][i] != id
    {
      assert b !in s.Refs(id);
    }
  }

  lemma DropLastKeepsTried(s: State, id: int)
    requires TriedOk(s) && id in s.info && !s.info[id].inTried && |s.random| > 0
    ensures TriedOk(DropLast(s, id))
  {
  }

  lemma DropLastKeepsNew(s: State, id: int, pending: set<int>)
    requires NewOk(s) && RefsOk(s, pending) && id in pending && |s.random| > 0
    ensures NewOk(DropLast(s, id))
  {
    UnreferencedNowhere(s, id, pending);
  }

  lemma DropLastKeepsRefs(s: State, id: int, pending: set<int>)
    requires NewOk(s) && RefsOk(s, pending) && id in pending && |s.random| > 0 && NewOk(DropLast(s, id))
    ensures RefsOk(DropLast(s, id), pending - {id})
  {
    var t := DropLast(s, id);
    forall other | other in t.info
      ensures t.Refs(other) == s.Refs(other)
    {}
  }

  lemma DropLastKeepsCounts(s: State, id: int, uncounted: int)
    requires CountsOk(s, uncounted) && id in s.info && !s.info[id].inTried && |s.random| > 0
    ensures CountsOk(DropLast(s, id), uncounted)
  {
    var t := DropLast(s, id);
    assert t.NewIds() == s.NewIds() - {id} && t.TriedIds() == s.TriedIds();
  }

  lemma DropLastKeeps(s: State, id: int, pending: set<int>, uncounted: int)
    requires Inv(s, pending, uncounted) && id in pending && s.info[id].randomPos == |s.random| - 1
    ensures Inv(DropLast(s, id), pending - {id}, uncounted)
  {
    DropLastKeepsLists(s, id);
    DropLastKeepsTried(s, id);
    DropLastKeepsNew(s, id, pending);
    DropLastKeepsRefs(s, id, pending);
    DropLastKeepsCounts(s, id, uncounted);
  }

  /** Removing an entry that no slot refers to. */
  lemma DropLastRemoves(s: State, id: int)
    requires id in s.info && |s.random| > 0
    ensures DropLast(s, id).info.Keys == s.info.Keys - {id}
  {
  }

  lemma PlaceInRandom(s: State, id: int, pending: set<int>, uncounted: int)
    requires Inv(s, pending, uncounted) && id in pending
    ensures id in s.info && 0 <= s.info[id].randomPos < |s.random| && s.random[s.info[id].randomPos] == id
    ensures s.random[|s.random| - 1] in s.info && RandomOk(s)
  {
  }

  lemma DeleteKeeps(s: State, id: int, pending: set<int>, uncounted: int)
    requires Inv(s, pending, uncounted) && id in pending
    ensures Inv(Delete(s, id), pending - {id}, uncounted)
    ensures Delete(s, id).info.Keys == s.info.Keys - {id}
  {
    hide Inv, SwapRandom, DropLast, SamePlaces;
    PlaceInRandom(s, id, pending, uncounted);
    var at, last := s.info[id].randomPos, |s.random| - 1;
    SwapRandomKeeps(s, at, last, pending, uncounted);
    var m := SwapRandom(s, at, last);
    assert m.info[id].randomPos == |m.random| - 1;
    DropLastKeeps(m, id, pending, uncounted);
    DropLastRemoves(m, id);
    assert Delete(s, id) == DropLast(m, id);
  }

  // ---------- References ----------

  /** How the reference sets change when slot `at` of bucket `b` goes from one id to another. */
  lemma RefsAfterPut(s: State, t: State, b: nat, at: nat, id: int, other: int)
    requires s.info.Keys <= t.info.Keys && other in s.info && t.info[other].service == s.info[other].service
    requires t.hasher == s.hasher && t.key == s.key
    requires NewOk(s) && b < NEW_BUCKET_COUNT && at < BUCKET_SIZE && t.newTable == Put(s.newTable, b, at, id)
    requires other != -1 && (other == id ==> at == s.NewPos(other, b))
    ensures Dims(t.newTable, NEW_BUCKET_COUNT)
    ensures other == id ==> t.Refs(other) == s.Refs(other) + {b}
    ensures other != id && other == s.newTable[b][at] ==> t.Refs(other) == s.Refs(other) - {b}
    ensures other != id && other != s.newTable[b][at] ==> t.Refs(other) == s.Refs(other)
  {
    PutAt(s.newTable, b, at, id, NEW_BUCKET_COUNT);
  }

  lemma UnrefKeepsNew(s: State, b: nat, i: nat)
    requires b < NEW_BUCKET_COUNT && i < BUCKET_SIZE && NewOk(s) && s.newTable[b][i] != -1
    ensures NewOk(Unref(s, b, i))
  {
    PutAt(s.newTable, b, i, -1, NEW_BUCKET_COUNT);
  }

  lemma UnrefKeepsRefs(s: State, b: nat, i: nat, pending: set<int>)
    requires b < NEW_BUCKET_COUNT && i < BUCKET_SIZE && NewOk(s) && RefsOk(s, pending) && s.newTable[b][i] != -1
             && -1 !in s.info
    requires NewOk(Unref(s, b, i))
    ensures var id := s.newTable[b][i];
            var t := Unref(s, b, i);
            RefsOk(t, if t.info[id].refCount == 0 then pending + {id} else pending) && s.info[id].refCount > 0
  {
    var id := s.newTable[b][i];
    var t := Unref(s, b, i);
    assert b in s.Refs(id);
    forall other | other in s.info
      ensures t.Refs(other) == if other == id then s.Refs(other) - {b} else s.Refs(other)
    {
      RefsAfterPut(s, t, b, i, -1, other);
    }
  }

  /** Rewriting one entry in place, keeping its service, its position and its table. */
  lemma WithInfoKeepsLists(s: State, t: State, id: int, i: AddrInfo)
    requires IdsOk(s) && RandomOk(s) && TimesOk(s) && id in s.info
    requires t.info == s.info[id := i] && t.ids == s.ids && t.random == s.random && t.idCount == s.idCount
    requires i.service == s.info[id].service && i.randomPos == s.info[id].randomPos
    requires i.lastTry >= 0 && i.lastSuccess >= 0 && (i.inTried ==> i.lastSuccess > 0)
    ensures IdsOk(t) && RandomOk(t) && TimesOk(t)
  {
  }

  lemma WithInfoKeepsTried(s: State, t: State, id: int, i: AddrInfo)
    requires TriedOk(s) && id in s.info && t.info == s.info[id := i]
    requires t.hasher == s.hasher && t.key == s.key && t.tried == s.tried
    requires i.service == s.info[id].service && i.inTried == s.info[id].inTried
    ensures TriedOk(t)
  {
  }

  lemma WithInfoKeepsCounts(s: State, t: State, id: int, i: AddrInfo, uncounted: int)
    requires CountsOk(s, uncounted) && id in s.info && t.info == s.info[id := i]
    requires t.nNew == s.nNew && t.nTried == s.nTried
    requires i.inTried == s.info[id].inTried
    ensures CountsOk(t, uncounted)
  {
    assert t.NewIds() == s.NewIds() && t.TriedIds() == s.TriedIds();
  }

  lemma UnrefKeeps(s: State, b: nat, i: nat, pending: set<int>, uncounted: int)
    requires b < NEW_BUCKET_COUNT && i < BUCKET_SIZE && Inv(s, pending, uncounted) && s.newTable[b][i] != -1
    ensures var id := s.newTable[b][i];
            var t := Unref(s, b, i);
            Inv(t, if t.info[id].refCount == 0 then pending + {id} else pending, uncounted) && s.info[id].refCount > 0
              && id !in pending
  {
    var id := s.newTable[b][i];
    var t := Unref(s, b, i);
    var info := s.info[id].(refCount := s.info[id].refCount - 1);
    WithInfoKeepsLists(s, t, id, info);
    WithInfoKeepsTried(s, t, id, info);
    WithInfoKeepsCounts(s, t, id, info, uncounted);
    UnrefKeepsNew(s, b, i);
    UnrefKeepsRefs(s, b, i, pending);
  }

  lemma ClearNewKeeps(s: State, b: nat, i: nat, pending: set<int>, uncounted: int)
    requires b < NEW_BUCKET_COUNT && i < BUCKET_SIZE && Inv(s, pending, uncounted)
    ensures Inv(ClearNew(s, b, i), pending, uncounted) && ClearNew(s, b, i).newTable[b][i] == -1
  {
    var id := s.newTable[b][i];
    if id != -1 {
      var t := Unref(s, b, i);
      UnrefKeeps(s, b, i, pending, uncounted);
      if t.info[id].refCount == 0 {
        DeleteKeeps(t, id, pending + {id}, uncounted);
        assert pending + {id} - {id} == pending;
      }
    }
  }

  lemma AddRefKeeps(s: State, id: int, b: nat, pending: set<int>, uncounted: int)
    requires Inv(s, pending, uncounted) && id in s.info && !s.info[id].inTried && b < NEW_BUCKET_COUNT
    requires s.newTable[b][s.NewPos(id, b)] == -1 && s.info[id].refCount < NEW_BUCKETS_PER_ADDRESS
    ensures Inv(AddRef(s, id, b), pending - {id}, uncounted)
  {
    var t := AddRef(s, id, b);
    var info := s.info[id].(refCount := s.info[id].refCount + 1);
    WithInfoKeepsLists(s, t, id, info);
    WithInfoKeepsTried(s, t, id, info);
    WithInfoKeepsCounts(s, t, id, info, uncounted);
    AddRefKeepsNew(s, id, b);
    AddRefKeepsRefs(s, id, b, pending);
  }

  lemma AddRefKeepsNew(s: State, id: int, b: nat)
    requires NewOk(s) && id in s.info && !s.info[id].inTried && b < NEW_BUCKET_COUNT
    ensures NewOk(AddRef(s, id, b))
  {
    PutAt(s.newTable, b, s.NewPos(id, b), id, NEW_BUCKET_COUNT);
  }

  lemma AddRefKeepsRefs(s: State, id: int, b: nat, pending: set<int>)
    requires NewOk(s) && RefsOk(s, pending) && id in s.info && !s.info[id].inTried && b < NEW_BUCKET_COUNT
             && -1 !in s.info
    requires s.newTable[b][s.NewPos(id, b)] == -1 && s.info[id].refCount < NEW_BUCKETS_PER_ADDRESS
             && NewOk(AddRef(s, id, b))
    ensures RefsOk(AddRef(s, id, b), pending - {id})
  {
    var t := AddRef(s, id, b);
    assert b !in s.Refs(id);
    forall other | other in s.info
      ensures t.Refs(other) == if other == id then s.Refs(other) + {b} else s.Refs(other)
    {
      RefsAfterPut(s, t, b, s.NewPos(id, b), id, other);
    }
  }

  /** Clearing a slot disturbs no other entry, except that its place in vRandom may change. */
  lemma ClearNewSpares(s: State, b: nat, i: nat, pending: set<int>, uncounted: int, other: int)
    requires b < NEW_BUCKET_COUNT && i < BUCKET_SIZE && Inv(s, pending, uncounted)
    requires other in s.info && other != s.newTable[b][i]
    ensures var t := ClearNew(s, b, i);
            && other in t.info && t.info[other] == s.info[other].(randomPos := t.info[other].randomPos)
            && t.hasher == s.hasher && t.key == s.key && t.tried == s.tried && t.nTried == s.nTried
            && t.newTable == if s.newTable[b][i] == -1 then s.newTable else Put(s.newTable, b, i, -1)
  {
    hide Inv, RandomOk, SwapRandom, Delete, Unref;
    TablesOk(s, pending, uncounted);
    var id := s.newTable[b][i];
    if id != -1 {
      UnrefKeeps(s, b, i, pending, uncounted);
      UnrefIs(s, b, i);
      var t := Unref(s, b, i);
      if t.info[id].refCount == 0 {
        TablesOk(t, pending + {id}, uncounted);
        DeleteIs(t, id);
      }
    }
  }

  lemma TablesOk(s: State, pending: set<int>, uncounted: int)
    requires Inv(s, pending, uncounted)
    ensures NewOk(s) && RandomOk(s) && -1 !in s.info
  {
  }

  lemma UnrefIs(s: State, b: nat, i: nat)
    requires b < NEW_BUCKET_COUNT && i < BUCKET_SIZE && NewOk(s) && s.newTable[b][i] != -1
    ensures var t := Unref(s, b, i);
            && t.info.Keys == s.info.Keys
            && (forall x :: x in s.info && x != s.newTable[b][i] ==> t.info[x] == s.info[x])
            && t.hasher == s.hasher && t.key == s.key && t.tried == s.tried && t.nTried == s.nTried
            && t.newTable == Put(s.newTable, b, i, -1)
  {
  }

  lemma DeleteIs(s: State, id: int)
    requires RandomOk(s) && id in s.info
    ensures var t := Delete(s, id);
            && (forall x :: x in s.info && x != id ==>
                x in t.info && t.info[x] == s.info[x].(randomPos := t.info[x].randomPos))
            && t.hasher == s.hasher && t.key == s.key && t.tried == s.tried && t.nTried == s.nTried
            && t.newTable == s.newTable
  {
    SwapRandomMoves(s, s.info[id].randomPos, |s.random| - 1);
  }

  // ---------- Adding an address ----------

  function U32(x: int): nat { x % 0x1_0000_0000 }

  predicate IsTerrible(i: AddrInfo, now: int) {
    if i.lastTry != 0 && i.lastTry >= now - 60 then false
    else if i.time > now + 10 * 60 then true
    else if i.time == 0 || now - i.time > HORIZON_DAYS * DAY then true
    else if i.lastSuccess == 0 && i.attempts >= RETRIES then true
    else now - i.lastSuccess > MIN_FAIL_DAYS * DAY && i.attempts >= MAX_FAILURES
  }

  function NewInfo(addr: Address, source: NetAddr, pos: int): AddrInfo {
    AddrInfo(addr.service, addr.services, addr.time, 0, source, 0, 0, 0, false, pos)
  }

  /** Enter an unknown address into the lists, with no reference yet; it counts as new at once. */
  function Create(s: State, addr: Address, source: NetAddr): State {
    s.(idCount := s.idCount + 1, info := s.info[s.idCount := NewInfo(addr, source, |s.random|)],
       ids := s.ids[addr.service.net := s.idCount], random := s.random + [s.idCount], nNew := s.nNew + 1)
  }

  function RefreshedTime(i: AddrInfo, addr: Address, penalty: int, now: int): nat {
    var interval := if now - addr.time < DAY then 60 * 60 else DAY;
    if addr.time != 0 && (i.time == 0 || i.time < addr.time - interval - penalty) then U32(Max(0, addr.time - penalty))
    else i.time
  }

  function Refreshed(i: AddrInfo, addr: Address, penalty: int, now: int): AddrInfo {
    i.(time := RefreshedTime(i, addr, penalty, now), services := i.services + addr.services)
  }

  /** Whether a known address earns another try at a new bucket; `rnd` is the drawn number. */
  predicate WantsReference(i: AddrInfo, addr: Address, rnd: nat) {
    && !(addr.time == 0 || (i.time != 0 && addr.time <= i.time))
    && !i.inTried
    && i.refCount != NEW_BUCKETS_PER_ADDRESS
    && (i.refCount <= 0 || rnd == 0)
  }

  /** Whether entry `id` may take slot `slot` of its new bucket. */
  predicate MayTake(s: State, id: int, slot: int, now: int)
    requires id in s.info && (slot != -1 ==> slot in s.info)
  {
    slot == -1 || IsTerrible(s.info[slot], now) || (s.info[slot].refCount > 1 && s.info[id].refCount == 0)
  }

  /** Ready to be given a place: consistent but for `id` itself, which may still be without a reference. */
  ghost predicate Placeable(s: State, id: int) {
    && id in s.info && !s.info[id].inTried && s.info[id].refCount < NEW_BUCKETS_PER_ADDRESS
    && Inv(s, if s.info[id].refCount == 0 then {id} else {}, 0)
  }

  ghost function Place(s: State, id: int, source: NetAddr, now: int): State
    requires Placeable(s, id)
  {
    var b := s.hasher.newBucket(s.key, s.info[id].service, source);
    var i := s.NewPos(id, b);
    var slot := s.newTable[b][i];
    if slot == id then s
    else if MayTake(s, id, slot, now) then
      ClearNewSpares(s, b, i, if s.info[id].refCount == 0 then {id} else {}, 0, id);
      AddRef(ClearNew(s, b, i), id, b)
    else if s.info[id].refCount == 0 then Delete(s, id)
    else s
  }

  lemma PlaceKeeps(s: State, id: int, source: NetAddr, now: int)
    requires Placeable(s, id)
    ensures Consistent(Place(s, id, source, now))
  {
    var pending := if s.info[id].refCount == 0 then {id} else {};
    var b := s.hasher.newBucket(s.key, s.info[id].service, source);
    var i := s.NewPos(id, b);
    var slot := s.newTable[b][i];
    if slot == id {
      assert b in s.Refs(id);
    } else if MayTake(s, id, slot, now) {
      ClearNewSpares(s, b, i, pending, 0, id);
      ClearNewKeeps(s, b, i, pending, 0);
      AddRefKeeps(ClearNew(s, b, i), id, b, pending, 0);
      assert pending - {id} == {};
    } else if s.info[id].refCount == 0 {
      DeleteKeeps(s, id, pending, 0);
      assert pending - {id} == {};
    }
  }

  /** The entry of a known address after its time and services have been brought up to date. */
  function Refresh(s: State, addr: Address, penalty: int, now: int): State
    requires addr.service.net in s.ids && s.ids[addr.service.net] in s.info
  {
    var id := s.ids[addr.service.net];
    s.WithInfo(id, Refreshed(s.info[id], addr, penalty, now))
  }

  lemma RefreshKeeps(s: State, addr: Address, penalty: int, now: int)
    requires Consistent(s) && addr.service.net in s.ids
    ensures Consistent(Refresh(s, addr, penalty, now))
  {
    var id := s.ids[addr.service.net];
    RewriteKeeps(s, id, Refreshed(s.info[id], addr, penalty, now));
  }

  /** Rewriting fields of an entry that no table depends on. */
  lemma RewriteKeeps(s: State, id: int, i: AddrInfo)
    requires Consistent(s) && id in s.info
    requires i.service == s.info[id].service && i.randomPos == s.info[id].randomPos
    requires i.inTried == s.info[id].inTried && i.refCount == s.info[id].refCount
    requires i.lastTry >= 0 && i.lastSuccess >= 0 && (i.inTried ==> i.lastSuccess > 0)
    ensures Consistent(s.WithInfo(id, i))
  {
    var t := s.WithInfo(id, i);
    WithInfoKeepsLists(s, t, id, i);
    assert SamePlaces(s, t);
    SamePlacesKeepsTables(s, t, {}, 0);
  }

  /** A new entry whose recorded time is already penalised. */
  function Register(s: State, addr: Address, source: NetAddr, penalty: int): State {
    var t := Create(s, addr, source);
    t.WithInfo(s.idCount, t.info[s.idCount].(time := U32(Max(0, addr.time - penalty))))
  }

  lemma RegisterKeeps(s: State, addr: Address, source: NetAddr, penalty: int)
    requires Consistent(s) && addr.service.net !in s.ids
    ensures Placeable(Register(s, addr, source, penalty), s.idCount)
  {
    var t := Register(s, addr, source, penalty);
    var id := s.idCount;
    RegisterKeepsLists(s, addr, source, penalty);
    assert id !in s.info;
    RegisterKeepsSlots(s, addr, source, penalty);
    RegisterKeepsRefs(s, addr, source, penalty);
    RegisterKeepsCounts(s, addr, source, penalty);
    assert t.info[id].refCount == 0 && !t.info[id].inTried;
  }

  lemma RegisterKeepsLists(s: State, addr: Address, source: NetAddr, penalty: int)
    requires IdsOk(s) && RandomOk(s) && TimesOk(s) && addr.service.net !in s.ids
    ensures var t := Register(s, addr, source, penalty); IdsOk(t) && RandomOk(t) && TimesOk(t)
  {
    hide IdsOk;
    RegisterKeepsIds(s, addr, source, penalty);
  }

  lemma RegisterKeepsIds(s: State, addr: Address, source: NetAddr, penalty: int)
    requires IdsOk(s) && addr.service.net !in s.ids
    ensures IdsOk(Register(s, addr, source, penalty)) && s.idCount !in s.info
  {
  }

  lemma RegisterKeepsSlots(s: State, addr: Address, source: NetAddr, penalty: int)
    requires IdsOk(s) && TriedOk(s) && NewOk(s)
    ensures var t := Register(s, addr, source, penalty); TriedOk(t) && NewOk(t)
  {
    assert s.idCount !in s.info;
  }

  lemma RegisterKeepsRefs(s: State, addr: Address, source: NetAddr, penalty: int)
    requires s.idCount !in s.info && s.idCount >= 0 && NewOk(s) && RefsOk(s, {})
             && NewOk(Register(s, addr, source, penalty))
    ensures RefsOk(Register(s, addr, source, penalty), {s.idCount})
  {
    var t := Register(s, addr, source, penalty);
    assert t.Refs(s.idCount) == {};
    forall other | other in s.info
      ensures t.Refs(other) == s.Refs(other)
    {}
  }

  lemma RegisterKeepsCounts(s: State, addr: Address, source: NetAddr, penalty: int)
    requires s.idCount !in s.info && CountsOk(s, 0)
    ensures CountsOk(Register(s, addr, source, penalty), 0)
  {
    var t := Register(s, addr, source, penalty);
    assert t.NewIds() == s.NewIds() + {s.idCount} && t.TriedIds() == s.TriedIds();
  }

  ghost function Add(s: State, routable: bool, addr: Address, source: NetAddr, penalty: int, now: int,
                     rnd: nat): (State, bool)
    requires Consistent(s)
  {
    if !routable then (s, false)
    else if addr.service.net in s.ids then
      RefreshKeeps(s, addr, penalty, now);
      var t, id := Refresh(s, addr, penalty, now), s.ids[addr.service.net];
      (if WantsReference(t.info[id], addr, rnd) then Place(t, id, source, now) else t, false)
    else
      RegisterKeeps(s, addr, source, penalty);
      (Place(Register(s, addr, source, penalty), s.idCount, source, now), true)
  }

  lemma AddKeeps(s: State, routable: bool, addr: Address, source: NetAddr, penalty: int, now: int, rnd: nat)
    requires Consistent(s)
    ensures Consistent(Add(s, routable, addr, source, penalty, now, rnd).0)
  {
    if routable {
      if addr.service.net in s.ids {
        RefreshKeeps(s, addr, penalty, now);
        var t, id := Refresh(s, addr, penalty, now), s.ids[addr.service.net];
        if WantsReference(t.info[id], addr, rnd) {
          PlaceKeeps(t, id, source, now);
        }
      } else {
        RegisterKeeps(s, addr, source, penalty);
        PlaceKeeps(Register(s, addr, source, penalty), s.idCount, source, now);
      }
    }
  }

  // ---------- Moving an entry to the tried table ----------

  /** Drop every reference of `id`; the entry leaves the count of new entries. */
  ghost function Unlist(s: State, id: int): State
    requires id in s.info && Dims(s.newTable, NEW_BUCKET_COUNT)
  {
    s.WithInfo(id, s.info[id].(refCount := s.info[id].refCount - |s.Refs(id)|))
     .(newTable := Cleared(s, id), nNew := s.nNew - 1)
  }

  function Cleared(s: State, id: int): (t: Table)
    requires id in s.info && Dims(s.newTable, NEW_BUCKET_COUNT)
    ensures Dims(t, NEW_BUCKET_COUNT)
  {
    seq(NEW_BUCKET_COUNT, b requires 0 <= b < NEW_BUCKET_COUNT =>
      if s.newTable[b][s.NewPos(id, b)] == id then s.newTable[b][s.NewPos(id, b) := -1] else s.newTable[b])
  }

  /** Take the entry in tried slot (`b`, `i`) out of the tried table; it is neither counted nor referenced yet. */
  function Evict(s: State, b: nat, i: nat): State
    requires b < TRIED_BUCKET_COUNT && i < BUCKET_SIZE && TriedOk(s) && s.tried[b][i] != -1
  {
    var id := s.tried[b][i];
    s.WithInfo(id, s.info[id].(inTried := false)).(tried := Put(s.tried, b, i, -1), nTried := s.nTried - 1)
  }

  /** Enter `id`, unreferenced and uncounted, at its tried slot. */
  function EnterTried(s: State, id: int): State
    requires id in s.info && Dims(s.tried, TRIED_BUCKET_COUNT)
  {
    s.WithInfo(id, s.info[id].(inTried := true))
     .(tried := Put(s.tried, s.TriedBucketOf(id), s.TriedPosOf(id), id), nTried := s.nTried + 1)
  }

  lemma UnlistKeeps(s: State, id: int)
    requires Consistent(s) && id in s.info && !s.info[id].inTried
    ensures Inv(Unlist(s, id), {id}, 1) && Unlist(s, id).info[id].refCount == 0
  {
    var t := Unlist(s, id);
    assert s.info[id].refCount == |s.Refs(id)|;
    var info := s.info[id].(refCount := 0);
    WithInfoKeepsLists(s, t, id, info);
    WithInfoKeepsTried(s, t, id, info);
    assert t.NewIds() == s.NewIds() && t.TriedIds() == s.TriedIds();
    UnlistKeepsRefs(s, id);
  }

  lemma UnlistKeepsRefs(s: State, id: int)
    requires NewOk(s) && RefsOk(s, {}) && id in s.info && !s.info[id].inTried && -1 !in s.info
    ensures NewOk(Unlist(s, id)) && RefsOk(Unlist(s, id), {id})
  {
    var t := Unlist(s, id);
    assert s.info[id].refCount == |s.Refs(id)|;
    assert NewOk(t);
    assert t.Refs(id) == {};
    forall other | other in s.info && other != id
      ensures t.Refs(other) == s.Refs(other)
    {
      forall b | 0 <= b < NEW_BUCKET_COUNT
        ensures b in t.Refs(other) <==> b in s.Refs(other)
      {}
    }
  }

  lemma EvictKeepsTried(s: State, b: nat, i: nat)
    requires b < TRIED_BUCKET_COUNT && i < BUCKET_SIZE && TriedOk(s) && s.tried[b][i] != -1 && -1 !in s.info
    ensures TriedOk(Evict(s, b, i))
  {
    PutAt(s.tried, b, i, -1, TRIED_BUCKET_COUNT);
  }

  lemma EvictKeepsRefs(s: State, b: nat, i: nat, pending: set<int>)
    requires b < TRIED_BUCKET_COUNT && i < BUCKET_SIZE && TriedOk(s) && s.tried[b][i] != -1
    requires NewOk(s) && RefsOk(s, pending)
    ensures NewOk(Evict(s, b, i)) && RefsOk(Evict(s, b, i), pending + {s.tried[b][i]})
  {
    var id := s.tried[b][i];
    var t := Evict(s, b, i);
    assert s.Refs(id) == {};
    assert NewOk(t);
    forall other | other in s.info
      ensures t.Refs(other) == s.Refs(other)
    {}
  }

  lemma EvictKeeps(s: State, b: nat, i: nat, pending: set<int>, uncounted: int)
    requires b < TRIED_BUCKET_COUNT && i < BUCKET_SIZE && Inv(s, pending, uncounted) && s.tried[b][i] != -1
    ensures Inv(Evict(s, b, i), pending + {s.tried[b][i]}, uncounted + 1)
  {
    var id := s.tried[b][i];
    var t := Evict(s, b, i);
    WithInfoKeepsLists(s, t, id, s.info[id].(inTried := false));
    EvictKeepsTried(s, b, i);
    EvictKeepsRefs(s, b, i, pending);
    assert t.NewIds() == s.NewIds() + {id} && t.TriedIds() == s.TriedIds() - {id};
  }

  lemma EnterTriedKeeps(s: State, id: int)
    requires Inv(s, {id}, 1) && s.info[id].lastSuccess > 0
    requires s.tried[s.TriedBucketOf(id)][s.TriedPosOf(id)] == -1
    ensures Consistent(EnterTried(s, id))
  {
    var t := EnterTried(s, id);
    WithInfoKeepsLists(s, t, id, s.info[id].(inTried := true));
    EnterTriedKeepsTried(s, id);
    EnterTriedKeepsRefs(s, id);
    assert t.NewIds() == s.NewIds() - {id} && t.TriedIds() == s.TriedIds() + {id};
  }

  lemma EnterTriedKeepsTried(s: State, id: int)
    requires TriedOk(s) && id in s.info && !s.info[id].inTried && -1 !in s.info
    requires s.tried[s.TriedBucketOf(id)][s.TriedPosOf(id)] == -1
    ensures TriedOk(EnterTried(s, id))
  {
    PutAt(s.tried, s.TriedBucketOf(id), s.TriedPosOf(id), id, TRIED_BUCKET_COUNT);
  }

  lemma EnterTriedKeepsRefs(s: State, id: int)
    requires NewOk(s) && RefsOk(s, {id}) && Dims(s.tried, TRIED_BUCKET_COUNT)
    ensures NewOk(EnterTried(s, id)) && RefsOk(EnterTried(s, id), {})
  {
    var t := EnterTried(s, id);
    UnreferencedNowhere(s, id, {id});
    assert NewOk(t);
    forall other | other in s.info
      ensures t.Refs(other) == s.Refs(other)
    {}
  }

  /** Give an evicted entry its reference in the new bucket of its own source, clearing whatever is there. */
  ghost function Demote(s: State, id: int, pending: set<int>, uncounted: int): State
    requires Inv(s, pending, uncounted) && id in pending
  {
    var b := s.hasher.newBucket(s.key, s.info[id].service, s.info[id].source);
    var i := s.NewPos(id, b);
    UnreferencedNowhere(s, id, pending);
    ClearNewSpares(s, b, i, pending, uncounted, id);
    AddRef(ClearNew(s, b, i), id, b).(nNew := ClearNew(s, b, i).nNew + 1)
  }

  lemma DemoteKeeps(s: State, id: int, pending: set<int>, uncounted: int)
    requires Inv(s, pending, uncounted) && id in pending
    ensures Inv(Demote(s, id, pending, uncounted), pending - {id}, uncounted - 1)
  {
    var b := s.hasher.newBucket(s.key, s.info[id].service, s.info[id].source);
    var i := s.NewPos(id, b);
    UnreferencedNowhere(s, id, pending);
    ClearNewSpares(s, b, i, pending, uncounted, id);
    ClearNewKeeps(s, b, i, pending, uncounted);
    hide ClearNew, AddRef, IdsOk, RandomOk, TimesOk, TriedOk, CountsOk;
    AddRefKeeps(ClearNew(s, b, i), id, b, pending, uncounted);
    CountOneMore(AddRef(ClearNew(s, b, i), id, b), pending - {id}, uncounted);
  }

  lemma CountOneMore(s: State, pending: set<int>, uncounted: int)
    requires Inv(s, pending, uncounted)
    ensures Inv(s.(nNew := s.nNew + 1), pending, uncounted - 1)
  {
    var t := s.(nNew := s.nNew + 1);
    assert t.NewIds() == s.NewIds() && t.TriedIds() == s.TriedIds();
    forall id | id in s.info
      ensures t.Refs(id) == s.Refs(id)
    {}
    assert NewOk(t);
  }

  ghost function MakeTried(s: State, id: int): State
    requires Consistent(s) && id in s.info && !s.info[id].inTried && s.info[id].lastSuccess > 0
  {
    UnlistKeeps(s, id);
    var t := Unlist(s, id);
    var b, i := t.TriedBucketOf(id), t.TriedPosOf(id);
    if t.tried[b][i] == -1 then EnterTried(t, id) else
      EvictKeeps(t, b, i, {id}, 1);
      var evicted := t.tried[b][i];
      DemoteKeeps(Evict(t, b, i), evicted, {id, evicted}, 2);
      EnterTried(Demote(Evict(t, b, i), evicted, {id, evicted}, 2), id)
  }

  lemma DemoteSpares(s: State, id: int, pending: set<int>, uncounted: int, other: int)
    requires Inv(s, pending, uncounted) && id in pending && other in pending && other != id
    ensures var t := Demote(s, id, pending, uncounted);
            && other in t.info && t.info[other] == s.info[other].(randomPos := t.info[other].randomPos)
            && t.tried == s.tried && t.hasher == s.hasher && t.key == s.key
  {
    var b := s.hasher.newBucket(s.key, s.info[id].service, s.info[id].source);
    var i := s.NewPos(id, b);
    UnreferencedNowhere(s, id, pending);
    UnreferencedNowhere(s, other, pending);
    ClearNewSpares(s, b, i, pending, uncounted, other);
    ClearNewSpares(s, b, i, pending, uncounted, id);
  }

  lemma MakeTriedKeeps(s: State, id: int)
    requires Consistent(s) && id in s.info && !s.info[id].inTried && s.info[id].lastSuccess > 0
    ensures Consistent(MakeTried(s, id)) && id in MakeTried(s, id).info && MakeTried(s, id).info[id].inTried
    ensures MakeTried(s, id).info[id].service == s.info[id].service
  {
    UnlistKeeps(s, id);
    var t := Unlist(s, id);
    var b, i := t.TriedBucketOf(id), t.TriedPosOf(id);
    if t.tried[b][i] == -1 {
      EnterTriedKeeps(t, id);
    } else {
      var evicted := t.tried[b][i];
      EvictKeeps(t, b, i, {id}, 1);
      var e := Evict(t, b, i);
      assert {id} + {evicted} == {id, evicted} && {id, evicted} - {evicted} == {id};
      DemoteKeeps(e, evicted, {id, evicted}, 2);
      DemoteSpares(e, evicted, {id, evicted}, 2, id);
      var d := Demote(e, evicted, {id, evicted}, 2);
      PutAt(t.tried, b, i, -1, TRIED_BUCKET_COUNT);
      EnterTriedKeeps(d, id);
    }
  }

  // ---------- The remaining operations ----------

  /** The id of a known service, or none if the address is unknown or known under another port. */
  function Lookup(s: State, service: Service): (id: int)
    requires forall a :: a in s.ids ==> s.ids[a] in s.info && s.ids[a] >= 0
    ensures id != -1 <==> service.net in s.ids && s.info[s.ids[service.net]].service == service
    ensures id != -1 ==> id == s.ids[service.net]
  {
    if service.net in s.ids && s.info[s.ids[service.net]].service == service then s.ids[service.net] else -1
  }

  ghost function Good(s: State, service: Service, time: int): State
    requires Consistent(s) && time > 0
  {
    var id := Lookup(s, service);
    if id == -1 then s else
      var i := s.info[id].(lastSuccess := time, lastTry := time, attempts := 0);
      RewriteKeeps(s, id, i);
      if i.inTried then s.WithInfo(id, i) else MakeTried(s.WithInfo(id, i), id)
  }

  /** A service reported good ends up in the tried table, whichever bucket its search started from. */
  lemma GoodKeeps(s: State, service: Service, time: int)
    requires Consistent(s) && time > 0
    ensures Consistent(Good(s, service, time))
    ensures var id := Lookup(s, service);
            id != -1 ==> var t := Good(s, service, time);
                         && id in t.info && t.info[id].inTried && t.info[id].service == service
                         && t.tried[t.TriedBucketOf(id)][t.TriedPosOf(id)] == id
  {
    var id := Lookup(s, service);
    if id != -1 {
      var i := s.info[id].(lastSuccess := time, lastTry := time, attempts := 0);
      RewriteKeeps(s, id, i);
      if !i.inTried {
        MakeTriedKeeps(s.WithInfo(id, i), id);
      }
    }
  }

  ghost function Attempt(s: State, service: Service, time: int): State
    requires Consistent(s) && time >= 0
  {
    var id := Lookup(s, service);
    if id == -1 then s else s.WithInfo(id, s.info[id].(lastTry := time, attempts := s.info[id].attempts + 1))
  }

  ghost function Connected(s: State, service: Service, time: int): State
    requires Consistent(s)
  {
    var id := Lookup(s, service);
    if id == -1 || time - s.info[id].time <= 20 * 60 then s else s.WithInfo(id, s.info[id].(time := U32(time)))
  }

  lemma AttemptKeeps(s: State, service: Service, time: int)
    requires Consistent(s) && time >= 0
    ensures Consistent(Attempt(s, service, time))
  {
    hide RandomOk, TriedOk, NewOk, RefsOk, CountsOk;
    var id := Lookup(s, service);
    if id != -1 {
      var i := s.info[id].(lastTry := time, attempts := s.info[id].attempts + 1);
      assert i.inTried ==> i.lastSuccess > 0;
      RewriteKeeps(s, id, i);
    }
  }

  lemma ConnectedKeeps(s: State, service: Service, time: int)
    requires Consistent(s)
    ensures Consistent(Connected(s, service, time))
  {
    var id := Lookup(s, service);
    if id != -1 {
      RewriteKeeps(s, id, s.info[id].(time := U32(time)));
    }
  }

  // ---------- Handing out addresses ----------

  function NodeLimit(size: nat): (n: nat)
    ensures 100 / GETADDR_MAX_PCT <= n <= GETADDR_MAX
  {
    var n := GETADDR_MAX_PCT * size / 100;
    var m := if n < 100 / GETADDR_MAX_PCT then 100 / GETADDR_MAX_PCT else n;
    if m > GETADDR_MAX then GETADDR_MAX else m
  }

  function AddressOf(i: AddrInfo): Address { Address(i.service, i.services, i.time) }

  /** The addresses of the presentable entries among the first `m` of vRandom. */
  ghost function Presentable(s: State, m: nat, now: int): (r: seq<Address>)
    requires RandomOk(s) && m <= |s.random|
    ensures |r| <= m
  {
    if m == 0 then [] else
      var i := s.info[s.random[m - 1]];
      Presentable(s, m - 1, now) + if IsTerrible(i, now) then [] else [AddressOf(i)]
  }

  predicate Draws(rnds: seq<nat>, size: nat) {
    |rnds| == size && forall n :: 0 <= n < size ==> rnds[n] < size - n
  }

  /** Entries before both positions of an exchange stay where they are. */
  lemma PresentableAfterSwap(s: State, p: nat, q: nat, m: nat, now: int)
    requires m <= p < |s.random| && m <= q < |s.random| && IdsOk(s) && RandomOk(s) && RandomOk(SwapRandom(s, p, q))
    ensures Presentable(SwapRandom(s, p, q), m, now) == Presentable(s, m, now)
  {
    SwapRandomMoves(s, p, q);
    if m > 0 {
      PresentableAfterSwap(s, p, q, m - 1, now);
    }
  }

  /** One exchange of the shuffle settles position `n`. */
  lemma ShuffleSettles(s: State, n: nat, q: nat, now: int)
    requires Consistent(s) && n <= q < |s.random|
    ensures var t := SwapRandom(s, n, q);
            && Consistent(t) && t.info.Keys == s.info.Keys && |t.random| == |s.random| && t.ids == s.ids
            && var i := t.info[t.random[n]];
               Presentable(t, n + 1, now) == Presentable(s, n, now) + if IsTerrible(i, now) then [] else [AddressOf(i)]
  {
    SwapRandomKeeps(s, n, q, {}, 0);
    PresentableAfterSwap(s, n, q, n, now);
  }

  /** One draw: bring a random later entry to position `n`, and take its address if it is presentable. */
  ghost function Draw(s: State, n: nat, q: nat, found: seq<Address>, now: int): (r: (State, seq<Address>))
    requires Consistent(s) && n <= q < |s.random|
    ensures Consistent(r.0) && r.0.info.Keys == s.info.Keys && |r.0.random| == |s.random| && r.0.ids == s.ids
    ensures found == Presentable(s, n, now) ==> r.1 == Presentable(r.0, n + 1, now)
    ensures |r.1| <= |found| + 1
  {
    ShuffleSettles(s, n, q, now);
    var t := SwapRandom(s, n, q);
    var i := t.info[t.random[n]];
    (t, found + if IsTerrible(i, now) then [] else [AddressOf(i)])
  }

  /** Shuffle vRandom from position `n` on, collecting presentable addresses until `limit` of them are found. */
  ghost function Shuffle(s: State, n: nat, found: seq<Address>, limit: nat, now: int, rnds: seq<nat>): (State,
                         seq<Address>)
    requires Consistent(s) && Draws(rnds, |s.random|) && n <= |s.random|
    decreases |s.random| - n
  {
    if n == |s.random| || |found| >= limit then (s, found) else
      var (t, more) := Draw(s, n, n + rnds[n], found, now);
      Shuffle(t, n + 1, more, limit, now, rnds)
  }

  ghost function GetAddr(s: State, now: int, rnds: seq<nat>): (State, seq<Address>)
    requires Consistent(s) && Draws(rnds, |s.random|)
  {
    Shuffle(s, 0, [], NodeLimit(|s.random|), now, rnds)
  }

  /** A shuffle returns the presentable addresses of a prefix of the new order, and stops early only at the limit. */
  lemma {:induction false} ShuffleFinds(s: State, n: nat, found: seq<Address>, limit: nat, now: int, rnds: seq<nat>)
    returns (m: nat)
    requires Consistent(s) && Draws(rnds, |s.random|) && n <= |s.random|
    requires found == Presentable(s, n, now) && |found| <= limit
    ensures var (t, v) := Shuffle(s, n, found, limit, now, rnds);
            && Consistent(t) && t.info.Keys == s.info.Keys && |t.random| == |s.random| && t.ids == s.ids
            && n <= m <= |t.random| && v == Presentable(t, m, now) && |v| <= limit && (m == |t.random| || |v| == limit)
    decreases |s.random| - n
  {
    hide Inv, Draw, Presentable;
    if n == |s.random| || |found| >= limit {
      m := n;
    } else {
      var (t, more) := Draw(s, n, n + rnds[n], found, now);
      m := ShuffleFinds(t, n + 1, more, limit, now, rnds);
    }
  }

  /** What a peer is sent: at most the limit, and everything presentable if there is room for it. */
  lemma GetAddrKeeps(s: State, now: int, rnds: seq<nat>)
    requires Consistent(s) && Draws(rnds, |s.random|)
    ensures var (t, v) := GetAddr(s, now, rnds);
            && Consistent(t) && t.info.Keys == s.info.Keys && t.ids == s.ids
            && |v| <= NodeLimit(|s.random|)
            && (exists m: nat :: m <= |t.random| && v == Presentable(t, m, now))
            && (|v| < NodeLimit(|s.random|) ==> v == Presentable(t, |t.random|, now))
  {
    var m := ShuffleFinds(s, 0, [], NodeLimit(|s.random|), now, rnds);
  }

  // ---------- All runs ----------

  datatype Op =
    | OpAdd(routable: bool, addr: Address, source: NetAddr, penalty: int, now: int, rnd: nat)
    | OpGood(service: Service, time: int)
    | OpAttempt(service: Service, time: int)
    | OpConnected(service: Service, time: int)
    | OpGetAddr(now: int, rnds: seq<nat>)

  /** Times are positive, and the random numbers of a shuffle are in range. */
  predicate Legal(s: State, op: Op) {
    match op
    case OpAdd(_, _, _, _, _, _) => true
    case OpGood(_, time) => time > 0
    case OpAttempt(_, time) => time > 0
    case OpConnected(_, _) => true
    case OpGetAddr(_, rnds) => Draws(rnds, |s.random|)
  }

  ghost function Apply(s: State, op: Op): State
    requires Consistent(s) && Legal(s, op)
  {
    match op
    case OpAdd(routable, addr, source, penalty, now, rnd) => Add(s, routable, addr, source, penalty, now, rnd).0
    case OpGood(service, time) => Good(s, service, time)
    case OpAttempt(service, time) => Attempt(s, service, time)
    case OpConnected(service, time) => Connected(s, service, time)
    case OpGetAddr(now, rnds) => GetAddr(s, now, rnds).0
  }

  lemma ApplyKeeps(s: State, op: Op)
    requires Consistent(s) && Legal(s, op)
    ensures Consistent(Apply(s, op))
  {
    match op
    case OpAdd(routable, addr, source, penalty, now, rnd) => AddKeeps(s, routable, addr, source, penalty, now, rnd);
    case OpGood(service, time) => GoodKeeps(s, service, time);
    case OpAttempt(service, time) => AttemptKeeps(s, service, time);
    case OpConnected(service, time) => ConnectedKeeps(s, service, time);
    case OpGetAddr(now, rnds) => GetAddrKeeps(s, now, rnds);
  }

  function FreeTable(buckets: nat): (t: Table)
    ensures Dims(t, buckets) && forall b, i :: 0 <= b < buckets && 0 <= i < BUCKET_SIZE ==> t[b][i] == -1
  {
    seq(buckets, b => seq(BUCKET_SIZE, i => -1))
  }

  function Empty(hasher: Hasher, key: int): State {
    State(hasher, key, 0, map[], map[], [], 0, FreeTable(TRIED_BUCKET_COUNT), 0, FreeTable(NEW_BUCKET_COUNT))
  }

  /** `states` is a run: it starts empty, and each state follows from the one before by a legal operation. */
  ghost predicate IsRun(states: seq<State>, ops: seq<Op>) {
    && |states| == |ops| + 1
    && states[0] == Empty(states[0].hasher, states[0].key)
    && forall k :: 0 <= k < |ops| ==> Step(states[k], ops[k], states[k + 1])
  }

  /** Nothing is assumed of the step when the state it starts from is inconsistent. */
  ghost predicate Step(s: State, op: Op, t: State) {
    Legal(s, op) && (Consistent(s) ==> t == Apply(s, op))
  }

  lemma EmptyIsConsistent(hasher: Hasher, key: int)
    ensures Consistent(Empty(hasher, key))
  {
    var s := Empty(hasher, key);
    assert s.NewIds() == {} && s.TriedIds() == {};
    assert NewOk(s);
  }

  lemma {:induction false} EveryRunIsConsistent(states: seq<State>, ops: seq<Op>, k: nat)
    requires IsRun(states, ops) && k < |states|
    ensures Consistent(states[k])
  {
    if k == 0 {
      EmptyIsConsistent(states[0].hasher, states[0].key);
    } else {
      EveryRunIsConsistent(states, ops, k - 1);
      assert Step(states[k - 1], ops[k - 1], states[k - 1 + 1]);
      ApplyKeeps(states[k - 1], ops[k - 1]);
    }
  }

  /** Add reports a new address as added even when its slot was taken and it was thrown away at once:
      it is stored exactly when the slot was free or its occupant could be displaced. */
  lemma NewAddressStoredIff(s: State, addr: Address, source: NetAddr, penalty: int, now: int, rnd: nat)
    requires Consistent(s) && addr.service.net !in s.ids
    ensures var (t, added) := Add(s, true, addr, source, penalty, now, rnd);
            var b := s.hasher.newBucket(s.key, addr.service, source);
            var slot := s.newTable[b][s.hasher.position(s.key, true, b, addr.service)];
            && added
            && (addr.service.net in t.ids <==> slot == -1 || IsTerrible(s.info[slot], now) || s.info[slot].refCount > 1)
  {
    RegisterKeeps(s, addr, source, penalty);
    var id := s.idCount;
    var u := Register(s, addr, source, penalty);
    PlaceKeeps(u, id, source, now);
    var b := s.hasher.newBucket(s.key, addr.service, source);
    var i := u.NewPos(id, b);
    assert id !in s.info;
    var slot := s.newTable[b][i];
    assert slot != id;
    if MayTake(u, id, slot, now) {
      ClearNewSpares(u, b, i, {id}, 0, id);
      assert id in Place(u, id, source, now).info;
    } else {
      SwapRandomMoves(u, u.info[id].randomPos, |u.random| - 1);
    }
  }

  /** After the first address has been added, it has its slot to itself. */
  lemma FirstIsPlaced(h: Hasher, key: int, a: Address, source: NetAddr, now: int, rnd: nat)
    requires 0 < a.time < 0x1_0000_0000
    ensures Consistent(Empty(h, key))
    ensures var t := Add(Empty(h, key), true, a, source, 0, now, rnd).0;
            var b := h.newBucket(key, a.service, source);
            && Consistent(t) && t.hasher == h && t.key == key && t.ids == map[a.service.net := 0] && 0 in t.info
            && t.newTable[b][h.position(key, true, b, a.service)] == 0
            && t.info[0] == NewInfo(a, source, 0).(refCount := 1)
  {
    var s := Empty(h, key);
    EmptyIsConsistent(h, key);
    AddKeeps(s, true, a, source, 0, now, rnd);
    hide Inv, RandomOk;
    RegisterKeeps(s, a, source, 0);
    var u := Register(s, a, source, 0);
    var b := h.newBucket(key, a.service, source);
    assert u.newTable[b][u.NewPos(0, b)] == -1;
    PutAt(u.newTable, b, u.NewPos(0, b), 0, NEW_BUCKET_COUNT);
    assert Place(u, 0, source, now) == AddRef(u, 0, b);
  }

  /** A case of this: two addresses of the same bucket and position are added to an empty object one after the other.
      The second is reported as added, but is not stored. */
  lemma SecondIsThrownAway(h: Hasher, key: int, a: Address, b: Address, source: NetAddr, rnd: nat)
    requires 0 < a.time < 0x1_0000_0000 && a.service.net != b.service.net
    requires var n := h.newBucket(key, a.service, source);
             && h.newBucket(key, b.service, source) == n
             && h.position(key, true, n, b.service) == h.position(key, true, n, a.service)
    ensures Consistent(Empty(h, key))
    ensures var t := Add(Empty(h, key), true, a, source, 0, a.time, rnd).0;
            && Consistent(t) && b.service.net !in t.ids
            && var (u, added) := Add(t, true, b, source, 0, a.time, rnd); added && b.service.net !in u.ids
  {
    hide Inv, Add, Empty;
    FirstIsPlaced(h, key, a, source, a.time, rnd);
    var t := Add(Empty(h, key), true, a, source, 0, a.time, rnd).0;
    NewAddressStoredIff(t, b, source, 0, a.time, rnd);
  }
}
