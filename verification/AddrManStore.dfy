/** Writing and reading the address manager, loop by loop, proved against AddrManFormat. */
module AddrManStore {
  import opened Common
  import opened AddrManSpec
  import opened AddrManFormat
  import opened AddrMan

  lemma AppendIsAssociative(a: seq<Item>, b: seq<Item>, c: seq<Item>)
    ensures a + (b + c) == a + b + c
  {
  }

  method Serialize(a: AddrMan) returns (stream: seq<Item>)
    requires a.Valid()
    ensures stream == Encode(a.View())
  {
    assert IdsOk(a.View()) && Dims(a.View().newTable, NEW_BUCKET_COUNT);
    var entries, mapUnkIds := WriteNew(a);
    var tried := WriteTried(a);
    var buckets := WriteBuckets(a, mapUnkIds);
    hide Inv, IdsOk, Dims, Entries, Buckets, Below;
    stream := [Byte(1), Byte(32), Key(a.nKey), Int(a.nNew), Int(a.nTried), Int(Xor30(NEW_BUCKET_COUNT))];
    assert stream == Header(a.View());
    hide Header;
    AppendIsAssociative(stream, entries, tried + buckets);
    stream := stream + entries;
    AppendIsAssociative(stream, tried, buckets);
    stream := stream + tried;
    stream := stream + buckets;
  }

  lemma EntriesExtend(info: map<int, AddrInfo>, ids: seq<int>, id: int)
    requires id in info && forall k :: 0 <= k < |ids| ==> ids[k] in info
    ensures Entries(info, ids + [id]) == Entries(info, ids) + [Entry(RecordOf(info[id]))]
  {
  }

  method WriteNew(a: AddrMan) returns (entries: seq<Item>, mapUnkIds: map<int, int>)
    requires a.Valid()
    ensures entries == Entries(a.mapInfo, Below(a.mapInfo, a.nIdCount, false))
    ensures forall id :: id in a.mapInfo ==> id in mapUnkIds && mapUnkIds[id] == |Below(a.mapInfo, id, false)|
  {
    ghost var s := a.View();
    OrderLengths(s);
    entries, mapUnkIds := [], map[];
    var nIds := 0;
    for id := 0 to a.nIdCount
      invariant nIds == |Below(a.mapInfo, id, false)| && entries == Entries(a.mapInfo, Below(a.mapInfo, id, false))
      invariant forall j :: 0 <= j < id && j in a.mapInfo ==>
                j in mapUnkIds && mapUnkIds[j] == |Below(a.mapInfo, j, false)|
    {
      if id in a.mapInfo {
        mapUnkIds := mapUnkIds[id := nIds];
        if a.mapInfo[id].refCount != 0 {
          BelowFinds(a.mapInfo, a.nIdCount, false, id);
          assert nIds != a.nNew;
          EntriesExtend(a.mapInfo, Below(a.mapInfo, id, false), id);
          entries := entries + [Entry(RecordOf(a.mapInfo[id]))];
          nIds := nIds + 1;
        }
      }
    }
  }

  method WriteTried(a: AddrMan) returns (entries: seq<Item>)
    requires a.Valid()
    ensures entries == Entries(a.mapInfo, Below(a.mapInfo, a.nIdCount, true))
  {
    ghost var s := a.View();
    OrderLengths(s);
    entries := [];
    var nIds := 0;
    for id := 0 to a.nIdCount
      invariant nIds == |Below(a.mapInfo, id, true)| && entries == Entries(a.mapInfo, Below(a.mapInfo, id, true))
    {
      if id in a.mapInfo && a.mapInfo[id].inTried {
        BelowFinds(a.mapInfo, a.nIdCount, true, id);
        assert nIds != a.nTried;
        EntriesExtend(a.mapInfo, Below(a.mapInfo, id, true), id);
        entries := entries + [Entry(RecordOf(a.mapInfo[id]))];
        nIds := nIds + 1;
      }
    }
  }

  lemma BucketAppends(s: State, b: nat, written: seq<Item>, all: seq<Item>)
    requires Dims(s.newTable, NEW_BUCKET_COUNT) && b < NEW_BUCKET_COUNT
    requires written + Buckets(s, b) == all
    ensures written + [Int(|Slots(s, b, 0)|)] + Slots(s, b, 0) + Buckets(s, b + 1) == all
  {
    hide Slots;
    AppendIsAssociative(written, [Int(|Slots(s, b, 0)|)], Slots(s, b, 0) + Buckets(s, b + 1));
    AppendIsAssociative(written + [Int(|Slots(s, b, 0)|)], Slots(s, b, 0), Buckets(s, b + 1));
  }

  method WriteBuckets(a: AddrMan, mapUnkIds: map<int, int>) returns (stream: seq<Item>)
    requires a.Valid()
    requires forall id :: id in a.mapInfo ==> id in mapUnkIds && mapUnkIds[id] == |Below(a.mapInfo, id, false)|
    ensures stream == Buckets(a.View(), 0)
  {
    ghost var s := a.View();
    assert Dims(s.newTable, NEW_BUCKET_COUNT);
    ghost var all := Buckets(s, 0);
    hide Inv, Dims, Slots, Below;
    stream := [];
    for b := 0 to NEW_BUCKET_COUNT
      invariant stream + Buckets(s, b) == all
    {
      BucketAppends(s, b, stream, all);
      var nSize := CountSlots(a, b);
      var slots := WriteSlots(a, b, mapUnkIds);
      stream := stream + [Int(nSize)];
      stream := stream + slots;
    }
  }

  /** A slot of the table in memory and the items it contributes. */
  lemma SlotUnfolds(a: AddrMan, b: nat, i: nat)
    requires a.Shape() && IdsOk(a.View()) && NewOk(a.View()) && b < NEW_BUCKET_COUNT && i < BUCKET_SIZE
    ensures var id := a.vvNew[b, i];
            && (id != -1 ==> id in a.mapInfo && id >= 0)
            && Slots(a.View(), b, i)
               == (if id == -1 then [] else [Int(|Below(a.mapInfo, id, false)|)]) + Slots(a.View(), b, i + 1)
  {
    var s := a.View();
    var id := s.newTable[b][i];
    assert id == a.vvNew[b, i];
    assert id != -1 ==> id in s.info && id >= 0;
  }

  method CountSlots(a: AddrMan, b: nat) returns (nSize: nat)
    requires a.Valid() && b < NEW_BUCKET_COUNT
    ensures nSize == |Slots(a.View(), b, 0)|
  {
    ghost var s := a.View();
    nSize := 0;
    for i := 0 to BUCKET_SIZE
      invariant nSize + |Slots(s, b, i)| == |Slots(s, b, 0)|
    {
      SlotUnfolds(a, b, i);
      hide Inv, Slots, IdsOk, NewOk;
      if a.vvNew[b, i] != -1 {
        nSize := nSize + 1;
      }
    }
  }

  /** What has been written of a bucket and what is left of it, one slot further. */
  lemma SlotAppends(a: AddrMan, b: nat, i: nat, written: seq<Item>, all: seq<Item>)
    requires a.Shape() && IdsOk(a.View()) && NewOk(a.View()) && b < NEW_BUCKET_COUNT && i < BUCKET_SIZE
    requires written + Slots(a.View(), b, i) == all
    ensures var id := a.vvNew[b, i];
            && (id != -1 ==> id in a.mapInfo && id >= 0)
            && (if id == -1 then written else written + [Int(|Below(a.mapInfo, id, false)|)])
            + Slots(a.View(), b, i + 1) == all
  {
    SlotUnfolds(a, b, i);
    var id := a.vvNew[b, i];
    hide Slots, IdsOk, NewOk, Below;
    if id != -1 {
      AppendIsAssociative(written, [Int(|Below(a.mapInfo, id, false)|)], Slots(a.View(), b, i + 1));
    }
  }

  method WriteSlots(a: AddrMan, b: nat, mapUnkIds: map<int, int>) returns (slots: seq<Item>)
    requires a.Valid() && b < NEW_BUCKET_COUNT
    requires forall id :: id in a.mapInfo ==> id in mapUnkIds && mapUnkIds[id] == |Below(a.mapInfo, id, false)|
    ensures slots == Slots(a.View(), b, 0)
  {
    assert IdsOk(a.View()) && NewOk(a.View());
    hide Inv, IdsOk, NewOk, Below;
    ghost var all := Slots(a.View(), b, 0);
    slots := [];
    for i := 0 to BUCKET_SIZE
      invariant slots + Slots(a.View(), b, i) == all
    {
      SlotAppends(a, b, i, slots, all);
      if a.vvNew[b, i] != -1 {
        slots := slots + [Int(mapUnkIds[a.vvNew[b, i]])];
      }
    }
  }

  // ---------- Reading ----------

  /** What the object's fields and the results say after reading, against the functional reading. */
  ghost predicate Agrees(d: Decoded, ok: bool, view: State, nLost: int, nLostUnk: int) {
    match d
    case Rejected => !ok
    case Decoded(t, lostTried, lostNew) => ok && view == t && nLost == lostTried && nLostUnk == lostNew
  }

  method Unserialize(a: AddrMan, stream: seq<Item>, randKey: int) returns (ok: bool, nLost: int, nLostUnk: int)
    requires a.Shape() && a.mapInfo == map[] && a.mapAddr == map[]
    modifies a, a.vvNew, a.vvTried
    ensures Filled(Empty(a.hasher, randKey), 0, 0)
    ensures Agrees(Decode(Empty(a.hasher, randKey), stream), ok, a.View(), nLost, nLostUnk)
  {
    a.Clear(randKey);
    ghost var t0 := a.View();
    nLost, nLostUnk := 0, 0;
    if !HeaderOk(stream) {
      return false, 0, 0;
    }
    RekeyedIsFilled(t0, stream[2].key, stream[3].n, stream[4].n);
    a.nKey, a.nNew, a.nTried := stream[2].key, stream[3].n, stream[4].n;
    var nUBuckets := stream[5].n;
    if stream[0].b != 0 {
      nUBuckets := Xor30(nUBuckets);
    }
    var usable := stream[0].b == 1 && nUBuckets == NEW_BUCKET_COUNT;
    assert a.View() == t0.(key := stream[2].key, nNew := stream[3].n, nTried := stream[4].n);
    hide Filled, DecodeBody;
    ok, nLost, nLostUnk := ReadBody(a, stream[6..], nUBuckets, usable);
  }

  method ReadBody(a: AddrMan, body: seq<Item>, nUBuckets: int, usable: bool)
    returns (ok: bool, nLost: int, nLostUnk: int)
    requires a.Shape() && Filled(a.View(), 0, 0) && (usable ==> nUBuckets == NEW_BUCKET_COUNT)
    modifies a, a.vvNew, a.vvTried
    ensures a.Shape() && Filled(old(a.View()), 0, 0)
    ensures Agrees(DecodeBody(old(a.View()), body, nUBuckets, usable), ok, a.View(), nLost, nLostUnk)
  {
    hide ReadNew, ReadTried, ReadBuckets, Prune;
    nLost, nLostUnk := 0, 0;
    var rest := body;
    ok, rest := ReadNewEntries(a, rest, usable);
    if !ok {
      return;
    }
    a.nIdCount := a.nNew;
    var lo := Lowest(a.nNew);
    ok, rest, nLost := ReadTriedEntries(a, rest, lo);
    if !ok {
      return;
    }
    ok := ReadPositions(a, rest, lo, nUBuckets, usable);
    if !ok {
      return;
    }
    nLostUnk := PruneUnreferenced(a, lo);
  }

  method ReadNewEntries(a: AddrMan, stream: seq<Item>, usable: bool) returns (ok: bool, rest: seq<Item>)
    requires a.Shape() && Filled(a.View(), 0, 0)
    modifies a`mapInfo, a`mapAddr, a`vRandom, a.vvNew
    ensures a.Shape()
    ensures match ReadNew(old(a.View()), stream, 0, usable)
            case Broken => !ok
            case Reader(t, more, _) => ok && a.View() == t && rest == more
  {
    ghost var whole := ReadNew(a.View(), stream, 0, usable);
    rest := stream;
    var n := 0;
    while n < a.nNew
      invariant a.Shape() && n >= 0 && Filled(a.View(), 0, n) && ReadNew(a.View(), rest, n, usable) == whole
      decreases a.nNew - n
    {
      if rest == [] || !rest[0].Entry? {
        return false, rest;
      }
      ghost var was := a.View();
      LoadNewEntry(a, n, rest[0].record, usable);
      rest, n := rest[1..], n + 1;
    }
    ok := true;
  }

  lemma TablesAre(a: AddrMan)
    requires a.Shape()
    ensures Dims(TableOf(a.vvNew), NEW_BUCKET_COUNT)
    ensures forall b, i :: 0 <= b < NEW_BUCKET_COUNT && 0 <= i < BUCKET_SIZE ==> TableOf(a.vvNew)[b][i] == a.vvNew[b, i]
  {
  }

  method LoadNewEntry(a: AddrMan, n: int, r: Record, usable: bool)
    requires a.Shape()
    modifies a`mapInfo, a`mapAddr, a`vRandom, a.vvNew
    ensures Dims(old(a.View()).newTable, NEW_BUCKET_COUNT) && a.View() == LoadNew(old(a.View()), n, r, usable)
  {
    hide TableOf;
    a.mapInfo := a.mapInfo[n := InfoOf(r)];
    a.mapAddr := a.mapAddr[r.service.net := n];
    a.mapInfo := a.mapInfo[n := a.mapInfo[n].(randomPos := |a.vRandom|)];
    a.vRandom := a.vRandom + [n];
    TablesAre(a);
    if !usable {
      var b := a.hasher.newBucket(a.nKey, r.service, r.source);
      var i := a.hasher.position(a.nKey, true, b, r.service);
      if a.vvNew[b, i] == -1 {
        SetSlot(a.vvNew, b, i, n);
        a.mapInfo := a.mapInfo[n := a.mapInfo[n].(refCount := a.mapInfo[n].refCount + 1)];
      }
    }
  }

  method ReadTriedEntries(a: AddrMan, stream: seq<Item>, ghost lo: int) returns (ok: bool, rest: seq<Item>, nLost: int)
    requires a.Shape() && Filled(a.View(), lo, a.nIdCount) && lo <= a.nIdCount
    modifies a`mapInfo, a`mapAddr, a`vRandom, a`nIdCount, a`nTried, a.vvTried
    ensures a.Shape()
    ensures match ReadTried(old(a.View()), stream, lo, 0, 0)
            case Broken => !ok
            case Reader(t, more, lost) => ok && a.View() == t && rest == more && nLost == lost
  {
    ghost var whole := ReadTried(a.View(), stream, lo, 0, 0);
    rest, nLost := stream, 0;
    var n := 0;
    while n < a.nTried
      invariant a.Shape() && Filled(a.View(), lo, a.nIdCount) && lo <= a.nIdCount && a.nTried == old(a.nTried)
      invariant ReadTried(a.View(), rest, lo, n, nLost) == whole
      decreases a.nTried - n
    {
      if rest == [] || !rest[0].Entry? {
        return false, rest, nLost;
      }
      var loaded := LoadTriedEntry(a, rest[0].record);
      rest, n := rest[1..], n + 1;
      if !loaded {
        nLost := nLost + 1;
      }
    }
    a.nTried := a.nTried - nLost;
    ok := true;
  }

  method LoadTriedEntry(a: AddrMan, r: Record) returns (loaded: bool)
    requires a.Shape()
    modifies a`mapInfo, a`mapAddr, a`vRandom, a`nIdCount, a.vvTried
    ensures Dims(old(a.View()).tried, TRIED_BUCKET_COUNT) && loaded == (TriedSlotOf(old(a.View()), r.service) == -1)
    ensures a.View() == if loaded then LoadTried(old(a.View()), r) else old(a.View())
  {
    var info := InfoOf(r);
    var b := a.hasher.triedBucket(a.nKey, r.service);
    var i := a.hasher.position(a.nKey, false, b, r.service);
    assert TableOf(a.vvTried)[b][i] == a.vvTried[b, i];
    loaded := a.vvTried[b, i] == -1;
    if loaded {
      info := info.(randomPos := |a.vRandom|);
      info := info.(inTried := true);
      a.vRandom := a.vRandom + [a.nIdCount];
      a.mapInfo := a.mapInfo[a.nIdCount := info];
      a.mapAddr := a.mapAddr[r.service.net := a.nIdCount];
      SetSlot(a.vvTried, b, i, a.nIdCount);
      a.nIdCount := a.nIdCount + 1;
    }
  }

  method ReadPositions(a: AddrMan, stream: seq<Item>, ghost lo: int, nUBuckets: int, usable: bool) returns (ok: bool)
    requires a.Shape() && Filled(a.View(), lo, a.nIdCount) && lo <= 0 && a.nNew <= a.nIdCount
    requires usable ==> nUBuckets == NEW_BUCKET_COUNT
    modifies a`mapInfo, a.vvNew
    ensures a.Shape()
    ensures match ReadBuckets(old(a.View()), stream, lo, 0, nUBuckets, usable)
            case Broken => !ok
            case Reader(t, _, _) => ok && a.View() == t && RandomOk(t)
  {
    ghost var whole := ReadBuckets(a.View(), stream, lo, 0, nUBuckets, usable);
    var rest := stream;
    var bucket := 0;
    while bucket < nUBuckets
      invariant a.Shape() && 0 <= bucket && Filled(a.View(), lo, a.nIdCount)
                && ReadBuckets(a.View(), rest, lo, bucket, nUBuckets, usable) == whole
      decreases nUBuckets - bucket
    {
      if rest == [] || !rest[0].Int? {
        return false;
      }
      ok, rest := ReadBucketRefs(a, rest[1..], lo, bucket, rest[0].n, usable);
      if !ok {
        return false;
      }
      bucket := bucket + 1;
    }
    ok := true;
  }

  method ReadBucketRefs(a: AddrMan, stream: seq<Item>, ghost lo: int, bucket: nat, nSize: int, usable: bool)
    returns (ok: bool, rest: seq<Item>)
    requires a.Shape() && Filled(a.View(), lo, a.nIdCount) && lo <= 0 && a.nNew <= a.nIdCount
    requires usable ==> bucket < NEW_BUCKET_COUNT
    modifies a`mapInfo, a.vvNew
    ensures a.Shape()
    ensures match ReadRefs(old(a.View()), stream, lo, bucket, nSize, usable)
            case Broken => !ok
            case Reader(t, more, _) => ok && a.View() == t && rest == more && Filled(t, lo, a.nIdCount)
  {
    ghost var whole := ReadRefs(a.View(), stream, lo, bucket, nSize, usable);
    rest := stream;
    var n := 0;
    while n < nSize
      invariant a.Shape() && 0 <= n && Filled(a.View(), lo, a.nIdCount)
                && ReadRefs(a.View(), rest, lo, bucket, nSize - n, usable) == whole
      decreases nSize - n
    {
      if rest == [] || !rest[0].Int? {
        return false, rest;
      }
      LoadReference(a, rest[0].n, bucket, usable);
      rest, n := rest[1..], n + 1;
    }
    ok := true;
  }

  method LoadReference(a: AddrMan, nIndex: int, bucket: nat, usable: bool)
    requires a.Shape() && (usable ==> bucket < NEW_BUCKET_COUNT)
    requires 0 <= nIndex < a.nNew ==> nIndex in a.mapInfo
    modifies a`mapInfo, a.vvNew
    ensures Dims(old(a.View()).newTable, NEW_BUCKET_COUNT) && a.View() == LoadRef(old(a.View()), nIndex, bucket, usable)
  {
    if nIndex >= 0 && nIndex < a.nNew {
      var i := a.hasher.position(a.nKey, true, bucket, a.mapInfo[nIndex].service);
      assert usable ==> TableOf(a.vvNew)[bucket][i] == a.vvNew[bucket, i];
      if usable && a.vvNew[bucket, i] == -1 && a.mapInfo[nIndex].refCount < NEW_BUCKETS_PER_ADDRESS {
        a.mapInfo := a.mapInfo[nIndex := a.mapInfo[nIndex].(refCount := a.mapInfo[nIndex].refCount + 1)];
        SetSlot(a.vvNew, bucket, i, nIndex);
      }
    }
  }

  method PruneUnreferenced(a: AddrMan, lo: int) returns (nLostUnk: int)
    requires a.Shape() && RandomOk(a.View())
    modifies a`mapInfo, a`mapAddr, a`vRandom, a`nNew
    ensures a.Shape() && (a.View(), nLostUnk) == Prune(old(a.View()), lo, 0)
  {
    ghost var whole := Prune(a.View(), lo, 0);
    nLostUnk := 0;
    var id := lo;
    while id < a.nIdCount
      invariant a.Shape() && RandomOk(a.View()) && Prune(a.View(), id, nLostUnk) == whole
      decreases a.nIdCount - id
    {
      if id in a.mapInfo && !a.mapInfo[id].inTried && a.mapInfo[id].refCount == 0 {
        DeleteKeepsRandom(a.View(), id);
        a.Delete(id);
        nLostUnk := nLostUnk + 1;
      }
      id := id + 1;
    }
  }
}
