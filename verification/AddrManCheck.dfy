/** The address manager's own consistency check, and why no operation can make it fail. */
module AddrManCheck {
  import opened AddrManSpec
  import opened AddrMan

  // ---------- What the check looks at ----------

  /** The id an address is listed under; looking up a missing one yields 0. */
  function ListedAs(s: State, net: NetAddr): int { if net in s.ids then s.ids[net] else 0 }

  predicate EntryPasses(s: State, id: int)
    requires id in s.info
  {
    var i := s.info[id];
    && (if i.inTried then i.lastSuccess != 0 && i.refCount == 0 else 1 <= i.refCount <= NEW_BUCKETS_PER_ADDRESS)
    && ListedAs(s, i.service.net) == id
    && 0 <= i.randomPos < |s.random| && s.random[i.randomPos] == id
    && i.lastTry >= 0 && i.lastSuccess >= 0
  }

  predicate TriedSlotPasses(s: State, b: nat, i: nat)
    requires Dims(s.tried, TRIED_BUCKET_COUNT) && b < TRIED_BUCKET_COUNT && i < BUCKET_SIZE
  {
    var id := s.tried[b][i];
    id == -1 || (id in s.info && s.info[id].inTried && s.TriedBucketOf(id) == b && s.TriedPosOf(id) == i)
  }

  predicate NewSlotPasses(s: State, b: nat, i: nat)
    requires Dims(s.newTable, NEW_BUCKET_COUNT) && b < NEW_BUCKET_COUNT && i < BUCKET_SIZE
  {
    var id := s.newTable[b][i];
    id == -1 || (id in s.info && !s.info[id].inTried && s.NewPos(id, b) == i)
  }

  ghost predicate TriedPasses(s: State)
    requires Dims(s.tried, TRIED_BUCKET_COUNT)
  {
    && (forall b, i :: 0 <= b < TRIED_BUCKET_COUNT && 0 <= i < BUCKET_SIZE ==> TriedSlotPasses(s, b, i))
    && forall id :: id in s.TriedIds() ==> s.tried[s.TriedBucketOf(id)][s.TriedPosOf(id)] == id
  }

  ghost predicate NewPasses(s: State)
    requires Dims(s.newTable, NEW_BUCKET_COUNT)
  {
    && (forall b, i :: 0 <= b < NEW_BUCKET_COUNT && 0 <= i < BUCKET_SIZE ==> NewSlotPasses(s, b, i))
    && forall id {:trigger s.Refs(id)} :: id in s.NewIds() ==> s.info[id].refCount == |s.Refs(id)|
  }

  ghost predicate Passes(s: State)
    requires Dims(s.tried, TRIED_BUCKET_COUNT) && Dims(s.newTable, NEW_BUCKET_COUNT)
  {
    && |s.random| == s.nTried + s.nNew
    && (forall id :: id in s.info ==> EntryPasses(s, id))
    && |s.TriedIds()| == s.nTried && |s.NewIds()| == s.nNew
    && TriedPasses(s) && NewPasses(s) && s.key != 0
  }

  // ---------- Consistent states pass ----------

  /** A list that has every member of a set exactly once is as long as the set. */
  lemma {:induction false} ListedOnce(random: seq<int>, ids: set<int>)
    requires (forall id :: id in random <==> id in ids) && forall i, j :: 0 <= i < j < |random| ==>
             random[i] != random[j]
    ensures |random| == |ids|
  {
    if random == [] {
      assert forall id :: id in ids ==> id in random;
      assert ids == {};
    } else {
      var n := |random| - 1;
      var last, init := random[n], random[..n];
      assert random == init + [last];
      assert last !in init;
      assert forall id :: id in init ==> id in random;
      ListedOnce(init, ids - {last});
    }
  }

  lemma RandomHasAll(s: State)
    requires RandomOk(s) && CountsOk(s, 0)
    ensures |s.random| == s.nTried + s.nNew
  {
    forall id
      ensures id in s.random <==> id in s.info
    {
      assert id in s.info ==> s.random[s.info[id].randomPos] == id;
    }
    ListedOnce(s.random, s.info.Keys);
    assert s.NewIds() + s.TriedIds() == s.info.Keys;
  }

  /** The check passes in every consistent state whose key is not null. */
  lemma ConsistentPasses(s: State)
    requires Consistent(s) && s.key != 0
    ensures Dims(s.tried, TRIED_BUCKET_COUNT) && Dims(s.newTable, NEW_BUCKET_COUNT) && Passes(s)
  {
    RandomHasAll(s);
    forall id | id in s.info
      ensures EntryPasses(s, id)
    {
      if s.info[id].inTried {
        TriedHasNoRefs(s, id);
      }
      assert s.info[id].refCount == |s.Refs(id)|;
    }
  }

  lemma TriedHasNoRefs(s: State, id: int)
    requires Consistent(s) && id in s.info && s.info[id].inTried
    ensures s.info[id].refCount == 0
  {
    assert s.Refs(id) == {};
    assert s.info[id].refCount == |s.Refs(id)|;
  }

  // ---------- States that pass are consistent ----------

  function Numbers(n: nat): (r: set<int>)
    ensures |r| == n && forall k :: k in r <==> 0 <= k < n
  {
    if n == 0 then {} else Numbers(n - 1) + {n - 1}
  }

  predicate TakenBy(info: map<int, AddrInfo>, ids: set<int>, k: int)
    requires forall id :: id in ids ==> id in info
  {
    exists id :: id in ids && info[id].randomPos == k
  }

  predicate AllApart(info: map<int, AddrInfo>, ids: set<int>)
    requires forall id :: id in ids ==> id in info
  {
    forall a, b :: a in ids && b in ids && info[a].randomPos == info[b].randomPos ==> a == b
  }

  /** As many different positions as there are positions are all of them. */
  lemma EachPositionTaken(info: map<int, AddrInfo>, ids: set<int>, n: nat)
    requires forall id :: id in ids ==> id in info && 0 <= info[id].randomPos < n
    requires AllApart(info, ids) && |ids| == n
    ensures forall k :: 0 <= k < n ==> TakenBy(info, ids, k)
  {
    var taken := Positions(info, ids);
    SubsetIsAll(taken, Numbers(n));
    assert forall k :: 0 <= k < n ==> k in Numbers(n);
  }

  lemma {:induction false} Positions(info: map<int, AddrInfo>, ids: set<int>) returns (r: set<int>)
    requires forall id :: id in ids ==> id in info
    requires AllApart(info, ids)
    ensures |r| == |ids| && forall k :: k in r <==> TakenBy(info, ids, k)
    decreases |ids|
  {
    r := {};
    if ids != {} {
      HasMember(ids);
      var id :| id in ids;
      var rest := Positions(info, ids - {id});
      forall k
        ensures TakenBy(info, ids, k) <==> TakenBy(info, ids - {id}, k) || info[id].randomPos == k
      {
      }
      assert !TakenBy(info, ids - {id}, info[id].randomPos);
      r := rest + {info[id].randomPos};
    }
  }

  lemma SubsetIsAll(a: set<int>, b: set<int>)
    requires |a| == |b| && a <= b
    ensures a == b
  {
    assert b == a + (b - a);
  }

  lemma PassingRandom(s: State)
    requires Dims(s.tried, TRIED_BUCKET_COUNT) && Dims(s.newTable, NEW_BUCKET_COUNT) && Passes(s)
    ensures RandomOk(s)
  {
    assert s.NewIds() + s.TriedIds() == s.info.Keys && s.NewIds() !! s.TriedIds();
    assert forall id :: id in s.info.Keys ==> EntryPasses(s, id);
    EachPositionTaken(s.info, s.info.Keys, |s.random|);
    forall i | 0 <= i < |s.random|
      ensures s.random[i] in s.info && s.info[s.random[i]].randomPos == i
    {
      assert TakenBy(s.info, s.info.Keys, i);
      var id :| id in s.info.Keys && s.info[id].randomPos == i;
      assert EntryPasses(s, id);
    }
  }

  lemma PassingTables(s: State)
    requires Dims(s.tried, TRIED_BUCKET_COUNT) && Dims(s.newTable, NEW_BUCKET_COUNT) && Passes(s) && -1 !in s.info
    ensures TriedOk(s) && NewOk(s) && RefsOk(s, {})
  {
    forall b, i | 0 <= b < TRIED_BUCKET_COUNT && 0 <= i < BUCKET_SIZE
      ensures var id := s.tried[b][i];
              id == -1 || (id in s.info && s.info[id].inTried && s.TriedBucketOf(id) == b && s.TriedPosOf(id) == i)
    {
      assert TriedSlotPasses(s, b, i);
    }
    forall b, i | 0 <= b < NEW_BUCKET_COUNT && 0 <= i < BUCKET_SIZE
      ensures var id := s.newTable[b][i];
              id == -1 || (id in s.info && !s.info[id].inTried && s.NewPos(id, b) == i)
    {
      assert NewSlotPasses(s, b, i);
    }
    assert forall id :: id in s.info && s.info[id].inTried ==> id in s.TriedIds();
    assert TriedOk(s) && NewOk(s);
    forall id | id in s.info
      ensures s.info[id].refCount == |s.Refs(id)|
    {
      assert EntryPasses(s, id);
      if s.info[id].inTried {
        assert s.Refs(id) == {};
      } else {
        assert id in s.NewIds();
      }
    }
  }

  /** The check passes exactly in the consistent states, given that the two dictionaries are inverse, of which it only
      looks at one half. */
  lemma PassesIffConsistent(s: State)
    requires Dims(s.tried, TRIED_BUCKET_COUNT) && Dims(s.newTable, NEW_BUCKET_COUNT) && IdsOk(s) && s.key != 0
    ensures Passes(s) <==> Consistent(s)
  {
    if Passes(s) {
      PassingRandom(s);
      PassingTables(s);
      assert forall id :: id in s.info ==> EntryPasses(s, id);
      assert s.NewIds() + s.TriedIds() == s.info.Keys;
    } else if Consistent(s) {
      ConsistentPasses(s);
    }
  }

  // ---------- The check itself ----------

  /** Checking the tried table up to a slot; what is left in `left` has not been found yet. */
  ghost predicate TriedSoFar(s: State, n: nat, i: nat, left: set<int>)
    requires Dims(s.tried, TRIED_BUCKET_COUNT)
  {
    && (forall b, j :: 0 <= b < TRIED_BUCKET_COUNT && 0 <= j < BUCKET_SIZE && (b < n || (b == n && j < i)) ==>
        TriedSlotPasses(s, b, j))
    && left <= s.TriedIds()
    && (forall id :: id in s.TriedIds() ==>
          (id in left <==> s.TriedBucketOf(id) > n || (s.TriedBucketOf(id) == n && s.TriedPosOf(id) >= i)
                           || s.tried[s.TriedBucketOf(id)][s.TriedPosOf(id)] != id))
  }

  lemma TriedNext(s: State, n: nat, i: nat, left: set<int>)
    requires Dims(s.tried, TRIED_BUCKET_COUNT) && n < TRIED_BUCKET_COUNT && i < BUCKET_SIZE && TriedSoFar(s, n, i, left)
    ensures s.tried[n][i] == -1 && -1 !in s.info ==> TriedSoFar(s, n, i + 1, left)
    ensures s.tried[n][i] != -1 && TriedSlotPasses(s, n, i) ==> TriedSoFar(s, n, i + 1, left - {s.tried[n][i]})
    ensures s.tried[n][i] !in left && s.tried[n][i] != -1 ==> !TriedSlotPasses(s, n, i)
  {
  }

  lemma TriedBucketDone(s: State, n: nat, left: set<int>)
    requires Dims(s.tried, TRIED_BUCKET_COUNT) && TriedSoFar(s, n, BUCKET_SIZE, left)
    ensures TriedSoFar(s, n + 1, 0, left)
  {
  }

  lemma NoMembers(ids: set<int>)
    requires forall id :: id !in ids
    ensures ids == {}
  {
    forall id
      ensures id in ids <==> id in {}
    {
    }
  }

  lemma HasMember(ids: set<int>)
    requires ids != {}
    ensures exists id :: id in ids
  {
    if forall id :: id !in ids {
      NoMembers(ids);
    }
  }

  lemma TriedDone(s: State, left: set<int>)
    requires Dims(s.tried, TRIED_BUCKET_COUNT) && TriedSoFar(s, TRIED_BUCKET_COUNT, 0, left)
    ensures left == {} <==> TriedPasses(s)
  {
    if left == {} {
      forall id | id in s.TriedIds()
        ensures s.tried[s.TriedBucketOf(id)][s.TriedPosOf(id)] == id
      {
        assert id !in left;
      }
    } else {
      HasMember(left);
      var id :| id in left;
      assert id in s.TriedIds() && s.tried[s.TriedBucketOf(id)][s.TriedPosOf(id)] != id;
    }
  }

  /** Looks through the tried table for all tried entries, each where it should be. */
  method CheckTried(a: AddrMan, setTried: set<int>) returns (passes: bool)
    requires a.Shape() && setTried == a.View().TriedIds() && -1 !in a.mapInfo
    ensures Dims(a.View().tried, TRIED_BUCKET_COUNT)
    ensures passes <==> TriedPasses(a.View())
  {
    ghost var s := a.View();
    TableDims(a);
    hide TriedSoFar, TriedPasses;
    var left := setTried;
    TriedStarts(s);
    for n := 0 to TRIED_BUCKET_COUNT
      invariant TriedSoFar(s, n, 0, left)
    {
      for i := 0 to BUCKET_SIZE
        invariant TriedSoFar(s, n, i, left)
      {
        TriedNext(s, n, i, left);
        var id := a.vvTried[n, i];
        assert id == s.tried[n][i];
        if id != -1 {
          if id !in left {
            TriedFails(s, n, i);
            return false;
          }
          LeftAreTried(s, n, i, left);
          if a.hasher.triedBucket(a.nKey, a.mapInfo[id].service) != n {
            TriedFails(s, n, i);
            return false;
          }
          if a.hasher.position(a.nKey, false, n, a.mapInfo[id].service) != i {
            TriedFails(s, n, i);
            return false;
          }
          left := left - {id};
        }
      }
      TriedBucketDone(s, n, left);
    }
    TriedDone(s, left);
    passes := left == {};
  }

  lemma TableDims(a: AddrMan)
    requires a.Shape()
    ensures Dims(a.View().tried, TRIED_BUCKET_COUNT) && Dims(a.View().newTable, NEW_BUCKET_COUNT)
  {
  }

  lemma TriedStarts(s: State)
    requires Dims(s.tried, TRIED_BUCKET_COUNT)
    ensures TriedSoFar(s, 0, 0, s.TriedIds())
  {
  }

  lemma LeftAreTried(s: State, n: nat, i: nat, left: set<int>)
    requires Dims(s.tried, TRIED_BUCKET_COUNT) && TriedSoFar(s, n, i, left)
    ensures forall id :: id in left ==> id in s.info && s.info[id].inTried
  {
  }

  lemma TriedFails(s: State, n: nat, i: nat)
    requires Dims(s.tried, TRIED_BUCKET_COUNT) && n < TRIED_BUCKET_COUNT && i < BUCKET_SIZE && !TriedSlotPasses(s, n, i)
    ensures !TriedPasses(s)
  {
  }

  /** The references of `id` in slots before slot `i` of bucket `n`. */
  ghost function Seen(s: State, id: int, n: nat, i: nat): set<int>
    requires id in s.info && Dims(s.newTable, NEW_BUCKET_COUNT)
  {
    set b | b in s.Refs(id) && (b < n || (b == n && s.NewPos(id, b) < i))
  }

  /** Checking the new table up to a slot; `left` counts the references of each entry not seen yet. */
  ghost predicate NewSoFar(s: State, n: nat, i: nat, left: map<int, int>)
    requires Dims(s.newTable, NEW_BUCKET_COUNT)
  {
    && (forall b, j :: 0 <= b < NEW_BUCKET_COUNT && 0 <= j < BUCKET_SIZE && (b < n || (b == n && j < i)) ==>
        NewSlotPasses(s, b, j))
    && left.Keys <= s.NewIds()
    && forall id {:trigger Seen(s, id, n, i)} :: id in s.NewIds() ==>
         s.info[id].refCount == |Seen(s, id, n, i)| + (if id in left then left[id] else 0)
           && (id in left ==> left[id] > 0)
  }

  function Less1(left: map<int, int>, id: int): map<int, int>
    requires id in left
  {
    if left[id] == 1 then left - {id} else left[id := left[id] - 1]
  }

  lemma SeenNext(s: State, id: int, n: nat, i: nat)
    requires id in s.info && Dims(s.newTable, NEW_BUCKET_COUNT) && n < NEW_BUCKET_COUNT && i < BUCKET_SIZE
    ensures Seen(s, id, n, i + 1) ==
            Seen(s, id, n, i) + (if s.newTable[n][i] == id && s.NewPos(id, n) == i then {n} else {})
    ensures n !in Seen(s, id, n, i) || s.NewPos(id, n) < i
    ensures Seen(s, id, n, i) <= s.Refs(id)
  {
  }

  lemma NewNextFree(s: State, n: nat, i: nat, left: map<int, int>)
    requires Dims(s.newTable, NEW_BUCKET_COUNT) && n < NEW_BUCKET_COUNT && i < BUCKET_SIZE && NewSoFar(s, n, i, left)
    requires s.newTable[n][i] == -1 && -1 !in s.info
    ensures NewSoFar(s, n, i + 1, left)
  {
    forall id | id in s.NewIds()
      ensures Seen(s, id, n, i + 1) == Seen(s, id, n, i)
    {
      SeenNext(s, id, n, i);
    }
  }

  lemma NewNext(s: State, n: nat, i: nat, left: map<int, int>)
    requires Dims(s.newTable, NEW_BUCKET_COUNT) && n < NEW_BUCKET_COUNT && i < BUCKET_SIZE && NewSoFar(s, n, i, left)
    requires s.newTable[n][i] in left && NewSlotPasses(s, n, i) && -1 !in s.info
    ensures NewSoFar(s, n, i + 1, Less1(left, s.newTable[n][i]))
  {
    var here := s.newTable[n][i];
    forall id | id in s.NewIds()
      ensures |Seen(s, id, n, i + 1)| == |Seen(s, id, n, i)| + if id == here then 1 else 0
    {
      SeenNext(s, id, n, i);
    }
  }

  /** An entry found once too often has more references than it should. */
  lemma NewTooMany(s: State, n: nat, i: nat, left: map<int, int>)
    requires Dims(s.newTable, NEW_BUCKET_COUNT) && n < NEW_BUCKET_COUNT && i < BUCKET_SIZE && NewSoFar(s, n, i, left)
    requires s.newTable[n][i] !in left && s.newTable[n][i] != -1
    ensures !NewPasses(s)
  {
    var id := s.newTable[n][i];
    if NewSlotPasses(s, n, i) {
      SeenNext(s, id, n, i);
      assert n in s.Refs(id) && n !in Seen(s, id, n, i);
      FewerSeen(Seen(s, id, n, i), s.Refs(id), n);
      assert s.info[id].refCount != |s.Refs(id)|;
    }
  }

  lemma FewerSeen(a: set<int>, b: set<int>, x: int)
    requires a <= b && x in b && x !in a
    ensures |a| < |b|
  {
    var rest := b - a;
    assert b == a + rest && x in rest;
  }

  lemma NewBucketDone(s: State, n: nat, left: map<int, int>)
    requires Dims(s.newTable, NEW_BUCKET_COUNT) && NewSoFar(s, n, BUCKET_SIZE, left)
    ensures NewSoFar(s, n + 1, 0, left)
  {
    forall id | id in s.NewIds()
      ensures Seen(s, id, n + 1, 0) == Seen(s, id, n, BUCKET_SIZE)
    {
    }
  }

  lemma NewDone(s: State, left: map<int, int>)
    requires Dims(s.newTable, NEW_BUCKET_COUNT) && NewSoFar(s, NEW_BUCKET_COUNT, 0, left)
    ensures left == map[] <==> NewPasses(s)
  {
    forall id | id in s.NewIds()
      ensures Seen(s, id, NEW_BUCKET_COUNT, 0) == s.Refs(id)
    {
    }
    if left != map[] {
      assert left.Keys != {};
      HasMember(left.Keys);
      var id :| id in left.Keys;
      assert id in s.NewIds() && Seen(s, id, NEW_BUCKET_COUNT, 0) == s.Refs(id);
      assert s.info[id].refCount != |s.Refs(id)|;
    }
  }

  lemma NewStarts(s: State, left: map<int, int>)
    requires Dims(s.newTable, NEW_BUCKET_COUNT) && left.Keys == s.NewIds()
    requires forall id :: id in left ==> left[id] == s.info[id].refCount > 0
    ensures NewSoFar(s, 0, 0, left)
  {
    forall id | id in s.NewIds()
      ensures Seen(s, id, 0, 0) == {}
    {
    }
  }

  lemma NewFails(s: State, n: nat, i: nat)
    requires Dims(s.newTable, NEW_BUCKET_COUNT) && n < NEW_BUCKET_COUNT && i < BUCKET_SIZE && !NewSlotPasses(s, n, i)
    ensures !NewPasses(s)
  {
  }

  lemma LeftAreNew(s: State, n: nat, i: nat, left: map<int, int>)
    requires Dims(s.newTable, NEW_BUCKET_COUNT) && NewSoFar(s, n, i, left)
    ensures forall id :: id in left ==> id in s.info && !s.info[id].inTried && left[id] > 0
  {
    forall id | id in left
      ensures left[id] > 0
    {
      assert id in s.NewIds() && Seen(s, id, n, i) == Seen(s, id, n, i);
    }
  }

  /** Looks through the new table, counting every entry's references down. */
  method CheckNew(a: AddrMan, mapNew: map<int, int>) returns (passes: bool)
    requires a.Shape() && mapNew.Keys == a.View().NewIds() && -1 !in a.mapInfo
    requires forall id :: id in mapNew ==> mapNew[id] == a.mapInfo[id].refCount > 0
    ensures Dims(a.View().newTable, NEW_BUCKET_COUNT)
    ensures passes <==> NewPasses(a.View())
  {
    hide NewSoFar, NewPasses, Less1, TableOf;
    ghost var s := a.View();
    TableDims(a);
    var left := mapNew;
    NewStarts(s, left);
    for n := 0 to NEW_BUCKET_COUNT
      invariant NewSoFar(s, n, 0, left)
    {
      for i := 0 to BUCKET_SIZE
        invariant NewSoFar(s, n, i, left)
      {
        var id := a.vvNew[n, i];
        SlotIs(a, n, i);
        if id != -1 {
          if id !in left {
            NewTooMany(s, n, i, left);
            return false;
          }
          LeftAreNew(s, n, i, left);
          if a.hasher.position(a.nKey, true, n, a.mapInfo[id].service) != i {
            NewFails(s, n, i);
            return false;
          }
          NewNext(s, n, i, left);
          left := CountDown(left, id);
        } else {
          NewNextFree(s, n, i, left);
        }
      }
      NewBucketDone(s, n, left);
    }
    NewDone(s, left);
    passes := left == map[];
  }

  lemma SlotIs(a: AddrMan, n: nat, i: nat)
    requires a.Shape() && n < NEW_BUCKET_COUNT && i < BUCKET_SIZE
    ensures a.View().newTable[n][i] == a.vvNew[n, i]
  {
  }

  method CountDown(mapNew: map<int, int>, id: int) returns (left: map<int, int>)
    requires id in mapNew
    ensures left == Less1(mapNew, id)
  {
    left := mapNew[id := mapNew[id] - 1];
    if left[id] == 0 {
      left := left - {id};
    }
    assert left == Less1(mapNew, id);
  }

  /** Checks one entry.  Looking up an address that is not listed lists it under 0. */
  method CheckEntry(a: AddrMan, id: int) returns (passes: bool)
    requires id in a.mapInfo
    modifies a`mapAddr
    ensures passes <==> EntryPasses(old(a.View()), id)
    ensures a.mapAddr == old(a.mapAddr) ||
            (a.mapInfo[id].service.net !in old(a.mapAddr)
             && a.mapAddr == old(a.mapAddr)[a.mapInfo[id].service.net := 0])
  {
    var info := a.mapInfo[id];
    if info.inTried {
      if info.lastSuccess == 0 || info.refCount != 0 {
        return false;
      }
    } else {
      if info.refCount < 0 || info.refCount > NEW_BUCKETS_PER_ADDRESS {
        return false;
      }
      if info.refCount == 0 {
        return false;
      }
    }
    if info.service.net !in a.mapAddr {
      a.mapAddr := a.mapAddr[info.service.net := 0];
    }
    if a.mapAddr[info.service.net] != id {
      return false;
    }
    if info.randomPos < 0 || info.randomPos >= |a.vRandom| || a.vRandom[info.randomPos] != id {
      return false;
    }
    passes := info.lastTry >= 0 && info.lastSuccess >= 0;
  }

  /** What the entries looked at so far amount to. */
  ghost predicate EntriesSoFar(s: State, rest: set<int>, setTried: set<int>, mapNew: map<int, int>) {
    && (forall id :: id in s.info && id !in rest ==> EntryPasses(s, id))
    && (forall id :: id in setTried <==> id in s.TriedIds() && id !in rest)
    && (forall id :: id in mapNew <==> id in s.NewIds() && id !in rest)
    && (forall id :: id in mapNew ==> mapNew[id] == s.info[id].refCount > 0)
  }

  /** Nothing but addresses that were not listed has been listed, under 0. */
  ghost predicate SameListing(s: State, ids: map<NetAddr, int>) {
    && (forall net :: net in s.ids ==> net in ids && ids[net] == s.ids[net])
    && (forall net :: net in ids && net !in s.ids ==>
        ids[net] == 0 && exists id :: id in s.info && s.info[id].service.net == net)
  }

  lemma SameListingPasses(s: State, ids: map<NetAddr, int>, id: int)
    requires SameListing(s, ids) && id in s.info
    ensures EntryPasses(s.(ids := ids), id) <==> EntryPasses(s, id)
    ensures s.info[id].service.net !in ids ==> SameListing(s, ids[s.info[id].service.net := 0])
  {
  }

  /** The whole check. */
  method Check(a: AddrMan) returns (passes: bool)
    requires a.Shape() && -1 !in a.mapInfo
    modifies a`mapAddr
    ensures Dims(old(a.View()).tried, TRIED_BUCKET_COUNT) && Dims(old(a.View()).newTable, NEW_BUCKET_COUNT)
    ensures passes <==> Passes(old(a.View()))
    ensures a.View() == old(a.View()).(ids := a.mapAddr) && SameListing(old(a.View()), a.mapAddr)
  {
    hide EntryPasses, SameListing, TriedPasses, NewPasses, TableOf;
    ghost var s := a.View();
    TableDims(a);
    ListingStarts(s);
    if |a.vRandom| != a.nTried + a.nNew {
      return false;
    }
    var rest := a.mapInfo.Keys;
    var setTried: set<int>, mapNew: map<int, int> := {}, map[];
    while rest != {}
      invariant rest <= s.info.Keys && EntriesSoFar(s, rest, setTried, mapNew)
      invariant a.View() == s.(ids := a.mapAddr) && SameListing(s, a.mapAddr)
      decreases rest
    {
      HasMember(rest);
      var id :| id in rest;
      SameListingPasses(s, a.mapAddr, id);
      var fine := CheckEntry(a, id);
      if !fine {
        return false;
      }
      if a.mapInfo[id].inTried {
        setTried := setTried + {id};
      } else {
        EntryCounts(s, id);
        mapNew := mapNew[id := a.mapInfo[id].refCount];
      }
      rest := rest - {id};
    }
    assert forall id :: id in setTried <==> id in s.TriedIds();
    assert forall id :: id in mapNew.Keys <==> id in s.NewIds();
    assert setTried == s.TriedIds() && mapNew.Keys == s.NewIds();
    if |setTried| != a.nTried || |mapNew| != a.nNew {
      return false;
    }
    SameTables(s, a.mapAddr);
    var tried := CheckTried(a, setTried);
    if !tried {
      return false;
    }
    var new_ := CheckNew(a, mapNew);
    passes := new_ && a.nKey != 0;
  }

  lemma ListingStarts(s: State)
    ensures SameListing(s, s.ids)
  {
  }

  lemma EntryCounts(s: State, id: int)
    requires id in s.info && EntryPasses(s, id) && !s.info[id].inTried
    ensures s.info[id].refCount > 0
  {
  }

  /** The tables are checked without looking at the addresses. */
  lemma SameTables(s: State, ids: map<NetAddr, int>)
    requires Dims(s.tried, TRIED_BUCKET_COUNT) && Dims(s.newTable, NEW_BUCKET_COUNT)
    ensures var t := s.(ids := ids);
            && t.TriedIds() == s.TriedIds() && t.NewIds() == s.NewIds()
            && (TriedPasses(t) <==> TriedPasses(s)) && (NewPasses(t) <==> NewPasses(s))
  {
    var t := s.(ids := ids);
    assert forall id :: id in s.info ==> t.Refs(id) == s.Refs(id);
    assert forall b, i :: 0 <= b < NEW_BUCKET_COUNT && 0 <= i < BUCKET_SIZE ==>
      (NewSlotPasses(t, b, i) <==> NewSlotPasses(s, b, i));
    assert forall b, i :: 0 <= b < TRIED_BUCKET_COUNT && 0 <= i < BUCKET_SIZE ==>
      (TriedSlotPasses(t, b, i) <==> TriedSlotPasses(s, b, i));
  }

  /** Between operations the check passes, unless the key is null, and changes nothing. */
  lemma ConsistentListing(s: State, ids: map<NetAddr, int>)
    requires Consistent(s) && SameListing(s, ids)
    ensures ids == s.ids
  {
    assert forall net :: net in ids ==> net in s.ids;
  }
}
