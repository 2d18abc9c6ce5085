/** The address manager as the program keeps it: two fixed tables written in place, two dictionaries,
    a vector and counters.  Every method is proved to compute its function in AddrManSpec, so what is
    proved there about all runs holds of this object. */
module AddrMan {
  import opened Common
  import opened AddrManSpec

  ghost function TableOf(a: array2<int>): Table
    reads a
  {
    seq(a.Length0, b requires 0 <= b < a.Length0 reads a =>
      seq(a.Length1, i requires 0 <= i < a.Length1 reads a => a[b, i]))
  }

  method SetSlot(a: array2<int>, b: nat, i: nat, id: int)
    requires b < a.Length0 && i < a.Length1
    modifies a
    ensures TableOf(a) == Put(old(TableOf(a)), b, i, id)
  {
    ghost var was := TableOf(a);
    a[b, i] := id;
    assert forall c :: 0 <= c < |was| ==> TableOf(a)[c] == Put(was, b, i, id)[c];
  }

  class AddrMan {
    const hasher: Hasher
    var nKey: int
    var nIdCount: int
    var mapInfo: map<int, AddrInfo>
    var mapAddr: map<NetAddr, int>
    var vRandom: seq<int>
    var nTried: int
    const vvTried: array2<int>
    var nNew: int
    const vvNew: array2<int>

    ghost predicate Shape()
      reads this
    {
      && vvTried.Length0 == TRIED_BUCKET_COUNT && vvTried.Length1 == BUCKET_SIZE
      && vvNew.Length0 == NEW_BUCKET_COUNT && vvNew.Length1 == BUCKET_SIZE
      && vvTried != vvNew
    }

    ghost function View(): State
      reads this, vvTried, vvNew
    {
      State(hasher, nKey, nIdCount, mapInfo, mapAddr, vRandom, nTried, TableOf(vvTried), nNew, TableOf(vvNew))
    }

    ghost predicate Valid()
      reads this, vvTried, vvNew
    {
      Shape() && Consistent(View())
    }

    constructor (h: Hasher, key: int)
      ensures Shape() && View() == Empty(h, key)
      ensures fresh(vvTried) && fresh(vvNew)
    {
      hasher := h;
      mapInfo, mapAddr := map[], map[];
      nKey, nIdCount, vRandom, nTried, nNew := key, 0, [], 0, 0;
      vvTried := new int[TRIED_BUCKET_COUNT, BUCKET_SIZE];
      vvNew := new int[NEW_BUCKET_COUNT, BUCKET_SIZE];
      new;
      Clear(key);
    }

    /** Empties the tables and counters; the two dictionaries are left as they are. */
    method Clear(key: int)
      requires Shape()
      modifies this, vvTried, vvNew
      ensures Shape() && View() == Empty(hasher, key).(info := old(mapInfo), ids := old(mapAddr))
    {
      vRandom := [];
      nKey := key;
      FreeAll(vvNew);
      FreeAll(vvTried);
      nIdCount, nTried, nNew := 0, 0, 0;
    }

    method FreeAll(a: array2<int>)
      requires a.Length1 == BUCKET_SIZE
      modifies a
      ensures TableOf(a) == FreeTable(a.Length0)
    {
      for b := 0 to a.Length0
        invariant forall c, j :: 0 <= c < b && 0 <= j < a.Length1 ==> a[c, j] == -1
      {
        for i := 0 to a.Length1
          invariant forall c, j :: 0 <= c < b && 0 <= j < a.Length1 ==> a[c, j] == -1
          invariant forall j :: 0 <= j < i ==> a[b, j] == -1
        {
          a[b, i] := -1;
        }
      }
      assert forall c :: 0 <= c < a.Length0 ==> TableOf(a)[c] == FreeTable(a.Length0)[c];
    }

    /** The entry of an address, by network address alone. */
    method Find(net: NetAddr) returns (found: bool, id: int)
      requires Valid()
      ensures found <==> net in mapAddr
      ensures found ==> id == mapAddr[net] && id in mapInfo
    {
      found, id := false, -1;
      if net in mapAddr {
        id := mapAddr[net];
        found := id in mapInfo;
      }
    }

    method SwapRandom(p: nat, q: nat)
      requires Shape() && p < |vRandom| && q < |vRandom| && vRandom[p] in mapInfo && vRandom[q] in mapInfo
      modifies this`mapInfo, this`vRandom
      ensures View() == AddrManSpec.SwapRandom(old(View()), p, q)
    {
      if p == q {
        return;
      }
      var id1, id2 := vRandom[p], vRandom[q];
      mapInfo := mapInfo[id1 := mapInfo[id1].(randomPos := q)];
      mapInfo := mapInfo[id2 := mapInfo[id2].(randomPos := p)];
      vRandom := vRandom[p := id2];
      vRandom := vRandom[q := id1];
    }

    method Delete(id: int)
      requires Shape() && id in mapInfo && RandomOk(View())
      requires !mapInfo[id].inTried && mapInfo[id].refCount == 0
      modifies this`mapInfo, this`vRandom, this`mapAddr, this`nNew
      ensures View() == AddrManSpec.Delete(old(View()), id)
    {
      SwapRandom(mapInfo[id].randomPos, |vRandom| - 1);
      vRandom := vRandom[..|vRandom| - 1];
      mapAddr := mapAddr - {mapInfo[id].service.net};
      mapInfo := mapInfo - {id};
      nNew := nNew - 1;
    }

    method Create(addr: Address, source: NetAddr) returns (id: int)
      requires Shape()
      modifies this`nIdCount, this`mapInfo, this`mapAddr, this`vRandom
      ensures id == old(nIdCount)
      ensures View() == AddrManSpec.Create(old(View()), addr, source).(nNew := nNew)
    {
      id := nIdCount;
      nIdCount := nIdCount + 1;
      mapInfo := mapInfo[id := NewInfo(addr, source, -1)];
      mapAddr := mapAddr[addr.service.net := id];
      mapInfo := mapInfo[id := mapInfo[id].(randomPos := |vRandom|)];
      vRandom := vRandom + [id];
    }

    method ClearNew(b: nat, i: nat, ghost pending: set<int>, ghost uncounted: int)
      requires Shape() && Inv(View(), pending, uncounted) && b < NEW_BUCKET_COUNT && i < BUCKET_SIZE
      modifies this`mapInfo, this`vRandom, this`mapAddr, this`nNew, vvNew
      ensures View() == AddrManSpec.ClearNew(old(View()), b, i)
    {
      if vvNew[b, i] != -1 {
        UnrefKeeps(View(), b, i, pending, uncounted);
        var id := vvNew[b, i];
        assert mapInfo[id].refCount > 0;
        mapInfo := mapInfo[id := mapInfo[id].(refCount := mapInfo[id].refCount - 1)];
        SetSlot(vvNew, b, i, -1);
        assert View() == Unref(old(View()), b, i);
        if mapInfo[id].refCount == 0 {
          Delete(id);
        }
      }
    }

    /** Takes every reference out of the new table. */
    method Unlist(id: int)
      requires Shape() && Consistent(View()) && id in mapInfo && !mapInfo[id].inTried
      modifies this`mapInfo, this`nNew, vvNew
      ensures View() == AddrManSpec.Unlist(old(View()), id) && mapInfo[id].refCount == 0
    {
      hide Inv;
      ghost var was := View();
      for bucket := 0 to NEW_BUCKET_COUNT
        invariant nNew == was.nNew
        invariant mapInfo ==
                  was.info[id := was.info[id].(refCount := was.info[id].refCount - |RefsBelow(was, id, bucket)|)]
        invariant forall b :: 0 <= b < bucket ==> TableOf(vvNew)[b] == Cleared(was, id)[b]
        invariant forall b :: bucket <= b < NEW_BUCKET_COUNT ==> TableOf(vvNew)[b] == was.newTable[b]
      {
        var pos := hasher.position(nKey, true, bucket, mapInfo[id].service);
        assert was.newTable[bucket][pos] == vvNew[bucket, pos]
          by { assert TableOf(vvNew)[bucket][pos] == vvNew[bucket, pos]; }
        OneMoreRef(was, id, bucket);
        if vvNew[bucket, pos] == id {
          SetSlot(vvNew, bucket, pos, -1);
          mapInfo := mapInfo[id := mapInfo[id].(refCount := mapInfo[id].refCount - 1)];
        }
      }
      nNew := nNew - 1;
      assert RefsBelow(was, id, NEW_BUCKET_COUNT) == was.Refs(id);
      assert TableOf(vvNew) == Cleared(was, id);
      UnlistKeeps(was, id);
    }

    method MakeTried(id: int)
      requires Valid() && id in mapInfo && !mapInfo[id].inTried && mapInfo[id].lastSuccess > 0
      modifies this`mapInfo, this`vRandom, this`mapAddr, this`nNew, this`nTried, vvNew, vvTried
      ensures View() == AddrManSpec.MakeTried(old(View()), id)
    {
      hide Inv;
      UnlistKeeps(View(), id);
      Unlist(id);
      var b := hasher.triedBucket(nKey, mapInfo[id].service);
      var i := hasher.position(nKey, false, b, mapInfo[id].service);
      assert TableOf(vvTried)[b][i] == vvTried[b, i];
      if vvTried[b, i] != -1 {
        Displace(b, i, id);
      }
      assert vvTried[b, i] == -1;
      SetSlot(vvTried, b, i, id);
      nTried := nTried + 1;
      mapInfo := mapInfo[id := mapInfo[id].(inTried := true)];
    }

    /** Sends the occupant of a tried slot back to the new table, while `id` is waiting for the slot. */
    method Displace(b: nat, i: nat, id: int)
      requires Shape() && Inv(View(), {id}, 1) && b < TRIED_BUCKET_COUNT && i < BUCKET_SIZE && vvTried[b, i] != -1
      modifies this`mapInfo, this`vRandom, this`mapAddr, this`nNew, this`nTried, vvNew, vvTried
      ensures var evicted := old(vvTried[b, i]);
              && TriedOk(old(View())) && Inv(AddrManSpec.Evict(old(View()), b, i), {id, evicted}, 2)
              && View() == AddrManSpec.Demote(AddrManSpec.Evict(old(View()), b, i), evicted, {id, evicted}, 2)
      ensures vvTried[b, i] == -1
      ensures id in mapInfo && mapInfo[id] == old(mapInfo[id]).(randomPos := mapInfo[id].randomPos)
    {
      ghost var was := View();
      var evicted := vvTried[b, i];
      assert TableOf(vvTried)[b][i] == evicted;
      EvictKeeps(was, b, i, {id}, 1);
      ghost var pending := {id, evicted};
      assert {id} + {evicted} == pending;
      DemoteSpares(AddrManSpec.Evict(was, b, i), evicted, pending, 2, id);
      Evict(b, i);
      assert vvTried[b, i] == -1 by { assert TableOf(vvTried)[b][i] == -1; }
      Demote(evicted, pending, 2);
    }

    method Evict(b: nat, i: nat)
      requires Shape() && TriedOk(View()) && b < TRIED_BUCKET_COUNT && i < BUCKET_SIZE && vvTried[b, i] != -1
      modifies this`mapInfo, this`nTried, vvTried
      ensures View() == AddrManSpec.Evict(old(View()), b, i)
    {
      var id := vvTried[b, i];
      assert TableOf(vvTried)[b][i] == id;
      mapInfo := mapInfo[id := mapInfo[id].(inTried := false)];
      SetSlot(vvTried, b, i, -1);
      nTried := nTried - 1;
    }

    method Demote(id: int, ghost pending: set<int>, ghost uncounted: int)
      requires Shape() && Inv(View(), pending, uncounted) && id in pending
      modifies this`mapInfo, this`vRandom, this`mapAddr, this`nNew, vvNew
      ensures View() == AddrManSpec.Demote(old(View()), id, pending, uncounted)
    {
      ghost var was := View();
      var b := hasher.newBucket(nKey, mapInfo[id].service, mapInfo[id].source);
      var i := hasher.position(nKey, true, b, mapInfo[id].service);
      UnreferencedNowhere(was, id, pending);
      ClearNewSpares(was, b, i, pending, uncounted, id);
      ClearNewKeeps(was, b, i, pending, uncounted);
      ClearNew(b, i, pending, uncounted);
      assert vvNew[b, i] == -1 by { assert TableOf(vvNew)[b][i] == -1; }
      assert mapInfo[id].refCount == 0;
      mapInfo := mapInfo[id := mapInfo[id].(refCount := 1)];
      SetSlot(vvNew, b, i, id);
      nNew := nNew + 1;
    }

    /** Moves a service that was just reached to the tried table; `start` is the bucket its search begins at. */
    method Good(service: Service, time: int, start: nat)
      requires Valid() && time > 0
      modifies this`mapInfo, this`vRandom, this`mapAddr, this`nNew, this`nTried, vvNew, vvTried
      ensures Valid() && View() == AddrManSpec.Good(old(View()), service, time)
    {
      hide Inv, AddrManSpec.MakeTried, TableOf;
      GoodKeeps(View(), service, time);
      var found, id := Find(service.net);
      if !found || mapInfo[id].service != service {
        return;
      }
      ghost var was := View();
      RewriteKeeps(was, id, mapInfo[id].(lastSuccess := time, lastTry := time, attempts := 0));
      mapInfo := mapInfo[id := mapInfo[id].(lastSuccess := time, lastTry := time, attempts := 0)];
      if mapInfo[id].inTried {
        return;
      }
      var bucket := FindReference(id, start);
      assert bucket != -1;  // the exit for a missing bucket is never taken
      MakeTried(id);
    }

    /** Some new bucket that refers to `id`, searched for from `start` on, around the table. */
    method FindReference(id: int, start: nat) returns (bucket: int)
      requires Valid() && id in mapInfo && !mapInfo[id].inTried
      ensures 0 <= bucket < NEW_BUCKET_COUNT
              && vvNew[bucket, hasher.position(nKey, true, bucket, mapInfo[id].service)] == id
    {
      ghost var s := View();
      assert s.info[id].refCount == |s.Refs(id)| && s.info[id].refCount > 0;
      ghost var b :| b in s.Refs(id);
      assert vvNew[b, s.NewPos(id, b)] == id;
      for n := 0 to NEW_BUCKET_COUNT
        invariant forall m :: 0 <= m < n ==> Around(start, m) != b
      {
        var nB := Around(start, n);
        var nBpos := hasher.position(nKey, true, nB, mapInfo[id].service);
        if vvNew[nB, nBpos] == id {
          return nB;
        }
      }
      WrapsAround(start, b);
      assert false;
    }

    method Add(routable: bool, addr: Address, source: NetAddr, penalty: int, now: int, rnd: nat) returns (added: bool)
      requires Valid()
      modifies this`nIdCount, this`mapInfo, this`vRandom, this`mapAddr, this`nNew, vvNew
      ensures Valid() && (View(), added) == AddrManSpec.Add(old(View()), routable, addr, source, penalty, now, rnd)
    {
      ghost var was := View();
      AddKeeps(was, routable, addr, source, penalty, now, rnd);
      hide Inv, WantsReference, AddrManSpec.Register, AddrManSpec.Place;
      if !routable {
        return false;
      }
      added := false;
      var found, id := Find(addr.service.net);
      if found {
        var wanted := Refresh(id, addr, penalty, now, rnd);
        if !wanted {
          return false;
        }
      } else {
        RegisterKeeps(was, addr, source, penalty);
        id := Register(addr, source, penalty);
        added := true;
      }
      Place(id, source, now);
    }

    method Register(addr: Address, source: NetAddr, penalty: int) returns (id: int)
      requires Shape()
      modifies this`nIdCount, this`mapInfo, this`mapAddr, this`vRandom, this`nNew
      ensures id == old(nIdCount) && View() == AddrManSpec.Register(old(View()), addr, source, penalty)
    {
      id := Create(addr, source);
      mapInfo := mapInfo[id := mapInfo[id].(time := U32(Max(0, mapInfo[id].time - penalty)))];
      nNew := nNew + 1;
    }

    /** Brings a known entry up to date and decides whether it should get another reference. */
    method Refresh(id: int, addr: Address, penalty: int, now: int, rnd: nat) returns (wanted: bool)
      requires Valid() && addr.service.net in mapAddr && id == mapAddr[addr.service.net]
      modifies this`mapInfo
      ensures Valid() && View() == AddrManSpec.Refresh(old(View()), addr, penalty, now)
      ensures wanted <==> WantsReference(mapInfo[id], addr, rnd)
    {
      RefreshKeeps(View(), addr, penalty, now);
      mapInfo := mapInfo[id := Refreshed(mapInfo[id], addr, penalty, now)];
      if addr.time == 0 || (mapInfo[id].time != 0 && addr.time <= mapInfo[id].time) {
        return false;
      }
      if mapInfo[id].inTried {
        return false;
      }
      if mapInfo[id].refCount == NEW_BUCKETS_PER_ADDRESS {
        return false;
      }
      assert mapInfo[id].refCount == |View().Refs(id)|;
      var nFactor := 1;
      for n := 0 to mapInfo[id].refCount
        invariant nFactor >= 1 && (nFactor > 1 <==> n > 0)
      {
        nFactor := nFactor * 2;
      }
      return !(nFactor > 1 && rnd != 0);
    }

    method Place(id: int, source: NetAddr, now: int)
      requires Shape() && Placeable(View(), id)
      modifies this`mapInfo, this`vRandom, this`mapAddr, this`nNew, vvNew
      ensures Shape() && View() == AddrManSpec.Place(old(View()), id, source, now)
    {
      hide TriedOk, RefsOk, CountsOk, TimesOk, RandomOk, IdsOk, AddrManSpec.ClearNew, AddrManSpec.Delete, State.Refs;
      ghost var was := View();
      ghost var pending := if mapInfo[id].refCount == 0 then {id} else {};
      var b := hasher.newBucket(nKey, mapInfo[id].service, source);
      var i := hasher.position(nKey, true, b, mapInfo[id].service);
      var slot := vvNew[b, i];
      assert TableOf(vvNew)[b][i] == slot;
      if slot != id {
        var insert := slot == -1;
        if !insert {
          if IsTerrible(mapInfo[slot], now) || (mapInfo[slot].refCount > 1 && mapInfo[id].refCount == 0) {
            insert := true;
          }
        }
        if insert {
          ClearNewSpares(was, b, i, pending, 0, id);
          ClearNew(b, i, pending, 0);
          mapInfo := mapInfo[id := mapInfo[id].(refCount := mapInfo[id].refCount + 1)];
          SetSlot(vvNew, b, i, id);
        } else if mapInfo[id].refCount == 0 {
          Delete(id);
        }
      }
    }

    method Attempt(service: Service, time: int)
      requires Valid() && time >= 0
      modifies this`mapInfo
      ensures Valid() && View() == AddrManSpec.Attempt(old(View()), service, time)
    {
      hide Inv, TableOf;
      ghost var was := View();
      AttemptKeeps(was, service, time);
      var found, id := Find(service.net);
      if !found || mapInfo[id].service != service {
        return;
      }
      mapInfo := mapInfo[id := mapInfo[id].(lastTry := time)];
      mapInfo := mapInfo[id := mapInfo[id].(attempts := mapInfo[id].attempts + 1)];
      assert View() == AddrManSpec.Attempt(was, service, time);
    }

    method Connected(service: Service, time: int)
      requires Valid()
      modifies this`mapInfo
      ensures Valid() && View() == AddrManSpec.Connected(old(View()), service, time)
    {
      ConnectedKeeps(View(), service, time);
      var found, id := Find(service.net);
      if !found || mapInfo[id].service != service {
        return;
      }
      var nUpdateInterval := 20 * 60;
      if time - mapInfo[id].time > nUpdateInterval {
        mapInfo := mapInfo[id := mapInfo[id].(time := U32(time))];
      }
    }

    /** Brings a random later entry to position `n` and takes its address if it is presentable. */
    method Draw(n: nat, q: nat, vAddr: seq<Address>, now: int) returns (r: seq<Address>)
      requires Valid() && n <= q < |vRandom|
      modifies this`mapInfo, this`vRandom
      ensures Valid() && (View(), r) == AddrManSpec.Draw(old(View()), n, q, vAddr, now)
    {
      ShuffleSettles(View(), n, q, now);
      SwapRandom(n, q);
      var ai := mapInfo[vRandom[n]];
      r := vAddr + if !IsTerrible(ai, now) then [AddressOf(ai)] else [];
    }

    method GetAddr(now: int, rnds: seq<nat>) returns (vAddr: seq<Address>)
      requires Valid() && Draws(rnds, |vRandom|)
      modifies this`mapInfo, this`vRandom
      ensures Valid() && (View(), vAddr) == AddrManSpec.GetAddr(old(View()), now, rnds)
    {
      hide Inv, AddrManSpec.Draw;
      ghost var was := View();
      vAddr := [];
      var nNodes := NodeLimit(|vRandom|);
      var n := 0;
      while n < |vRandom| && |vAddr| < nNodes
        invariant Valid() && n <= |vRandom| && |vRandom| == |was.random|
        invariant Shuffle(View(), n, vAddr, nNodes, now, rnds) == AddrManSpec.GetAddr(was, now, rnds)
        decreases |was.random| - n
      {
        vAddr := Draw(n, n + rnds[n], vAddr, now);
        n := n + 1;
      }
    }
  }

  function Around(start: nat, n: nat): (b: nat)
    ensures b < NEW_BUCKET_COUNT
  {
    (n + start) % NEW_BUCKET_COUNT
  }

  lemma WrapsAround(start: nat, b: nat)
    requires b < NEW_BUCKET_COUNT
    ensures exists m :: 0 <= m < NEW_BUCKET_COUNT && Around(start, m) == b
  {
    var m := (b - start) % NEW_BUCKET_COUNT;
    assert Around(start, m) == b;
  }

  /** The references of `id` in buckets below `n`. */
  ghost function RefsBelow(s: State, id: int, n: nat): set<int>
    requires id in s.info && Dims(s.newTable, NEW_BUCKET_COUNT) && n <= NEW_BUCKET_COUNT
  {
    set b | 0 <= b < n && s.newTable[b][s.NewPos(id, b)] == id
  }

  lemma OneMoreRef(s: State, id: int, n: nat)
    requires id in s.info && Dims(s.newTable, NEW_BUCKET_COUNT) && n < NEW_BUCKET_COUNT
    ensures |RefsBelow(s, id, n + 1)| == |RefsBelow(s, id, n)| + if s.newTable[n][s.NewPos(id, n)] == id then 1 else 0
  {
    assert RefsBelow(s, id, n + 1) == RefsBelow(s, id, n) + if s.newTable[n][s.NewPos(id, n)] == id then {n} else {};
  }
}
