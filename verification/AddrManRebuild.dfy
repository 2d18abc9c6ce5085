/** Reading what was written in another version, or for another number of buckets.  The stored references mean
    nothing then: each new entry gets the place its first source gives it, unless an earlier entry has it. */
module AddrManRebuild {
  import opened Common
  import opened AddrManSpec
  import opened AddrManFormat

  function Ints(refs: seq<int>): (r: seq<Item>) { seq(|refs|, i requires 0 <= i < |refs| => Int(refs[i])) }

  /** A list of references for each bucket, led by its length. */
  function Lists(refs: seq<seq<int>>): seq<Item> {
    if refs == [] then [] else [Int(|refs[0]|)] + (Ints(refs[0]) + Lists(refs[1..]))
  }

  /** The number of buckets is marked, but not by the first version. */
  function Marked(version: nat, buckets: nat): int { if version == 0 then buckets else Xor30(buckets) }

  function ForeignHeader(s: State, version: nat, buckets: nat): (r: seq<Item>)
    ensures |r| == 6
  {
    [Byte(version), Byte(32), Key(s.key), Int(s.nNew), Int(s.nTried), Int(Marked(version, buckets))]
  }

  /** An object as another version writes it, with any references. */
  function Foreign(s: State, version: nat, refs: seq<seq<int>>): seq<Item>
    requires s.idCount >= 0
  {
    ForeignHeader(s, version, |refs|)
    + (Entries(s.info, Below(s.info, s.idCount, false))
       + (Entries(s.info, Below(s.info, s.idCount, true)) + Lists(refs)))
  }

  // ---------- First places ----------

  /** The bucket and position that a new entry gets from the source it first came from. */
  function Home(s: State, id: int): (NewIndex, SlotIndex)
    requires id in s.info
  {
    var b := s.hasher.newBucket(s.key, s.info[id].service, s.info[id].source);
    (b, s.hasher.position(s.key, true, b, s.info[id].service))
  }

  function Occupant(s: State, id: int): int
    requires id in s.info && Dims(s.newTable, NEW_BUCKET_COUNT)
  {
    s.newTable[Home(s, id).0][Home(s, id).1]
  }

  /** The new entries below `n` stand at home, or another one with a lower id does. */
  ghost predicate Placed(s: State, n: int) {
    && Dims(s.newTable, NEW_BUCKET_COUNT)
    && (forall b, i :: 0 <= b < NEW_BUCKET_COUNT && 0 <= i < BUCKET_SIZE && s.newTable[b][i] != -1 ==>
                         0 <= s.newTable[b][i] < n && s.newTable[b][i] in s.info
                         && Home(s, s.newTable[b][i]) == (b, i))
    && (forall k :: 0 <= k < n ==>
                      && k in s.info && 0 <= Occupant(s, k) <= k
                      && s.info[k].refCount == if Occupant(s, k) == k then 1 else 0)
  }

  lemma PlacedStep(t: State, n: nat, r: Record)
    requires Filled(t, 0, n) && Placed(t, n)
    ensures Placed(LoadNew(t, n, r, false), n + 1)
  {
    var u := LoadNew(t, n, r, false);
    LoadNewIs(t, n, r);
    var (b, i) := Home(u, n);
    PutAt(t.newTable, b, i, n, NEW_BUCKET_COUNT);
    hide LoadNew, Filled, Home, Put;
    assert t.newTable[b][i] == -1 ==> forall k :: 0 <= k < n ==> Home(t, k) != (b, i);
    forall k | 0 <= k < n
      ensures Occupant(u, k) == Occupant(t, k)
    {
    }
  }

  lemma LoadNewIs(t: State, n: nat, r: Record)
    requires Filled(t, 0, n) && Dims(t.newTable, NEW_BUCKET_COUNT)
    ensures var u := LoadNew(t, n, r, false);
            && u.info.Keys == t.info.Keys + {n} && n !in t.info
            && (forall k :: k in t.info ==> u.info[k] == t.info[k] && Home(u, k) == Home(t, k))
            && var (b, i) := Home(u, n);
               var free := t.newTable[b][i] == -1;
               && u.newTable == (if free then Put(t.newTable, b, i, n) else t.newTable)
               && u.info[n].refCount == if free then 1 else 0
  {
  }

  // ---------- Reading without regard to references ----------

  /** The object without any references. */
  function Bare(t: State): State {
    t.(info := map id | id in t.info :: t.info[id].(refCount := 0), newTable := FreeTable(NEW_BUCKET_COUNT))
  }

  ghost function BareReader(r: Reader): Reader {
    match r
    case Broken => Broken
    case Reader(t, rest, lost) => Reader(Bare(t), rest, lost)
  }

  lemma BareIsFilled(t: State, lo: int, hi: int)
    requires Filled(t, lo, hi)
    ensures Filled(Bare(t), lo, hi)
  {
    assert Bare(t).info.Keys == t.info.Keys;
  }

  lemma BareLoadNew(t: State, n: int, r: Record)
    requires Dims(t.newTable, NEW_BUCKET_COUNT)
    ensures Bare(LoadNew(t, n, r, false)) == LoadNew(Bare(t), n, r, true)
  {
    assert Bare(LoadNew(t, n, r, false)).info == LoadNew(Bare(t), n, r, true).info;
  }

  lemma LoadNewFills(t: State, n: nat, r: Record)
    requires Filled(t, 0, n)
    ensures Filled(LoadNew(t, n, r, false), 0, n + 1) && LoadNew(t, n, r, false).nNew == t.nNew
  {
  }

  lemma {:induction false} BareReadNew(t: State, rest: seq<Item>, n: nat)
    requires Filled(t, 0, n) && Placed(t, n)
    ensures Filled(Bare(t), 0, n)
    ensures var r := ReadNew(t, rest, n, false);
            && ReadNew(Bare(t), rest, n, true) == BareReader(r)
            && (r.Reader? ==> Placed(r.s, Max(n, t.nNew)))
    decreases t.nNew - n
  {
    hide Filled, Placed, LoadNew;
    BareIsFilled(t, 0, n);
    if n < t.nNew && rest != [] && rest[0].Entry? {
      var r := rest[0].record;
      LoadNewFills(t, n, r);
      PlacedStep(t, n, r);
      HasTable(t, n);
      BareLoadNew(t, n, r);
      BareReadNew(LoadNew(t, n, r, false), rest[1..], n + 1);
    }
  }

  lemma HasTable(t: State, n: int)
    requires Filled(t, 0, n)
    ensures Dims(t.newTable, NEW_BUCKET_COUNT)
  {
  }

  /** Entries without references have been added to `t`. */
  ghost predicate Extends(t: State, u: State) {
    && u.hasher == t.hasher && u.key == t.key && u.newTable == t.newTable && u.nNew == t.nNew
    && (forall k :: k in t.info ==> k in u.info && u.info[k] == t.info[k])
    && (forall k :: k in u.info && k !in t.info ==> u.info[k].refCount == 0)
  }

  lemma BareLoadTried(t: State, r: Record)
    requires Dims(t.tried, TRIED_BUCKET_COUNT)
    ensures Bare(LoadTried(t, r)) == LoadTried(Bare(t), r)
  {
    assert Bare(LoadTried(t, r)).info == LoadTried(Bare(t), r).info;
  }

  lemma LoadTriedFills(t: State, r: Record)
    requires 0 <= t.idCount && Filled(t, 0, t.idCount)
    ensures var u := LoadTried(t, r);
            Filled(u, 0, u.idCount) && u.idCount == t.idCount + 1 && u.nTried == t.nTried && Extends(t, u)
  {
  }

  lemma BareTried(t: State, service: Service)
    requires Dims(t.tried, TRIED_BUCKET_COUNT)
    ensures Bare(t).nTried == t.nTried && Bare(t).idCount == t.idCount && Dims(Bare(t).tried, TRIED_BUCKET_COUNT)
    ensures TriedSlotOf(Bare(t), service) == TriedSlotOf(t, service)
  {
  }

  lemma HasTried(t: State, n: int)
    requires Filled(t, 0, n)
    ensures Dims(t.tried, TRIED_BUCKET_COUNT)
  {
  }

  lemma ExtendsMore(t: State, u: State, v: State)
    requires Extends(t, u) && Extends(u, v)
    ensures Extends(t, v)
  {
  }

  lemma BareIsSame(t: State)
    ensures Bare(t).nTried == t.nTried && Bare(t).idCount == t.idCount
  {
  }

  lemma BareTriedEnd(t: State, rest: seq<Item>, n: nat, lost: int)
    requires 0 <= t.idCount && Filled(t, 0, t.idCount) && Filled(Bare(t), 0, t.idCount) && n >= t.nTried
    ensures Bare(t).idCount == t.idCount
    ensures var r := ReadTried(t, rest, 0, n, lost);
            r.Reader? && ReadTried(Bare(t), rest, 0, n, lost) == BareReader(r) && Extends(t, r.s)
  {
    hide Filled;
  }

  lemma {:induction false} BareReadTried(t: State, rest: seq<Item>, n: nat, lost: int)
    requires 0 <= t.idCount && Filled(t, 0, t.idCount)
    ensures Filled(Bare(t), 0, t.idCount)
    ensures var r := ReadTried(t, rest, 0, n, lost);
            && ReadTried(Bare(t), rest, 0, n, lost) == BareReader(r)
            && (r.Reader? ==> Extends(t, r.s))
    decreases t.nTried - n
  {
    hide Filled, Bare, LoadTried, TriedSlotOf, Extends, Dims;
    BareIsFilled(t, 0, t.idCount);
    HasTried(t, t.idCount);
    if n >= t.nTried {
      BareTriedEnd(t, rest, n, lost);
    } else if rest != [] && rest[0].Entry? {
      var r := rest[0].record;
      BareTried(t, r.service);
      if TriedSlotOf(t, r.service) == -1 {
        var u := LoadTried(t, r);
        BareLoadTried(t, r);
        LoadTriedFills(t, r);
        BareReadTried(u, rest[1..], n + 1, lost);
        var end := ReadTried(u, rest[1..], 0, n + 1, lost);
        if end.Reader? {
          ExtendsMore(t, u, end.s);
        }
      } else {
        BareReadTried(t, rest[1..], n + 1, lost + 1);
      }
    } else {
      BareIsSame(t);
    }
  }

  lemma {:induction false} RefsSkipped(t: State, refs: seq<int>, more: seq<Item>, b: nat)
    requires Filled(t, 0, t.idCount) && t.nNew <= t.idCount
    ensures ReadRefs(t, Ints(refs) + more, 0, b, |refs|, false) == Reader(t, more, 0)
    decreases |refs|
  {
    var rest := Ints(refs) + more;
    if refs == [] {
      assert rest == more;
    } else {
      assert rest[0] == Int(refs[0]) && rest[1..] == Ints(refs[1..]) + more;
      RefsSkipped(t, refs[1..], more, b);
    }
  }

  lemma {:induction false} ListsSkipped(t: State, refs: seq<seq<int>>, b: nat)
    requires Filled(t, 0, t.idCount) && t.nNew <= t.idCount
    ensures ReadBuckets(t, Lists(refs), 0, b, b + |refs|, false) == Reader(t, [], 0)
    decreases |refs|
  {
    if refs != [] {
      var rest := Ints(refs[0]) + Lists(refs[1..]);
      assert Lists(refs) == [Int(|refs[0]|)] + rest && Lists(refs)[1..] == rest;
      RefsSkipped(t, refs[0], Lists(refs[1..]), b);
      ListsSkipped(t, refs[1..], b + 1);
    }
  }

  // ---------- The entries that stay ----------

  /** All is in order but for the new entries that have no place. */
  lemma RebuiltInv(t: State, nNew: nat)
    requires Inv(Bare(t), Unlinked(Bare(t)), 0) && Placed(t, nNew)
    requires forall k :: k in t.info ==> (t.info[k].inTried <==> k >= nNew) && (k >= nNew ==> t.info[k].refCount == 0)
    ensures Inv(t, Unlinked(t), 0)
  {
    var u := Bare(t);
    assert u.info.Keys == t.info.Keys;
    assert IdsOk(t) && RandomOk(t) && TimesOk(t) && TriedOk(t) by { BareParts(t); }
    assert u.NewIds() == t.NewIds() && u.TriedIds() == t.TriedIds();
    assert NewOk(t);
    forall k | k in t.info
      ensures t.info[k].refCount == |t.Refs(k)|
    {
      RefsOfPlaced(t, nNew, k);
    }
    assert RefsOk(t, Unlinked(t));
  }

  lemma BareParts(t: State)
    requires Inv(Bare(t), Unlinked(Bare(t)), 0)
    ensures IdsOk(t) && RandomOk(t) && TimesOk(t) && TriedOk(t)
  {
    var u := Bare(t);
    assert u.info.Keys == t.info.Keys;
    assert forall k :: k in t.info ==> t.info[k].(refCount := 0) == u.info[k];
  }

  lemma RefsOfPlaced(t: State, nNew: nat, k: int)
    requires Placed(t, nNew) && NewOk(t) && k in t.info && k >= 0 && (k >= nNew ==> t.info[k].refCount == 0)
    ensures t.info[k].refCount == |t.Refs(k)| <= 1
  {
    if k < nNew && Occupant(t, k) == k {
      assert t.Refs(k) == {Home(t, k).0};
    } else {
      assert t.Refs(k) == {};
    }
  }

  /** The entries in `gone` are gone; those left are listed elsewhere at most. */
  ghost predicate Without(t: State, u: State, gone: set<int>) {
    && u.hasher == t.hasher && u.key == t.key && u.tried == t.tried && u.newTable == t.newTable
    && u.nTried == t.nTried && u.idCount == t.idCount && u.nNew == t.nNew - |gone|
    && u.info.Keys == t.info.Keys - gone
    && forall k :: k in u.info ==> u.info[k] == t.info[k].(randomPos := u.info[k].randomPos)
  }

  lemma DeleteOnly(t: State, id: int)
    requires RandomOk(t) && id in t.info
    ensures Without(t, Delete(t, id), {id}) && Delete(t, id).idCount == t.idCount
  {
    SwapRandomMoves(t, t.info[id].randomPos, |t.random| - 1);
  }

  lemma NothingGone(t: State, gone: set<int>)
    requires forall id :: id !in gone
    ensures gone == {} && Without(t, t, gone)
  {
    forall id: int ensures id in gone <==> id in {} {}
    assert gone == {} && t.info.Keys == t.info.Keys - {};
  }

  lemma WithoutMore(t: State, u: State, v: State, id: int, gone: set<int>)
    requires id !in gone && Without(t, u, {id}) && Without(u, v, gone)
    ensures Without(t, v, gone + {id}) && |gone + {id}| == |gone| + 1
  {
    assert v.info.Keys == t.info.Keys - (gone + {id});
    assert forall k :: k in v.info ==> k in u.info;
  }

  lemma GoneAre(t: State, gone: set<int>)
    requires Inv(t, gone, 0)
    ensures RandomOk(t) && forall id :: id in gone ==> id < t.idCount
    ensures forall id :: id in gone <==> id in t.info && !t.info[id].inTried && t.info[id].refCount == 0
  {
    assert RandomOk(t) && IdsOk(t) && RefsOk(t, gone);
  }

  /** Pruning deletes exactly the entries without references. */
  lemma {:induction false} PruneForgets(t: State, n: int, lost: int, gone: set<int>)
    requires Inv(t, gone, 0) && forall k :: k in gone ==> k >= n
    ensures RandomOk(t)
    ensures var (u, l) := Prune(t, n, lost); Consistent(u) && Without(t, u, gone) && l == lost + |gone|
    decreases t.idCount - n
  {
    hide Inv, RandomOk, Delete, Without;
    GoneAre(t, gone);
    if n >= t.idCount {
      NothingGone(t, gone);
    } else if n in gone {
      DeleteKeeps(t, n, gone, 0);
      DeleteOnly(t, n);
      var u := Delete(t, n);
      PruneForgets(u, n + 1, lost + 1, gone - {n});
      WithoutMore(t, u, Prune(u, n + 1, lost + 1).0, n, gone - {n});
      assert gone - {n} + {n} == gone;
    } else {
      PruneForgets(t, n + 1, lost, gone);
    }
  }

  // ---------- What comes back ----------

  /** No new entry with a lower id has the same place at home. */
  ghost predicate IsFirst(s: State, id: int)
    requires id in s.info
  {
    forall x :: x in s.info && !s.info[x].inTried && x < id ==> Home(s, x) != Home(s, id)
  }

  /** What has become of one entry. */
  ghost predicate EntryRebuilt(s: State, t: State, id: int, k: int)
    requires id in s.info && Dims(t.newTable, NEW_BUCKET_COUNT)
  {
    && (k in t.info <==> s.info[id].inTried || IsFirst(s, id))
    && (k in t.info ==>
        && RecordOf(t.info[k]) == RecordOf(s.info[id])
        && t.info[k].inTried == s.info[id].inTried
        && t.info[k].refCount == (if s.info[id].inTried then 0 else 1)
        && (!s.info[id].inTried ==> t.newTable[Home(s, id).0][Home(s, id).1] == k))
  }

  /** `t` has the entries of `s`, renamed by `r`, but of those with the same home only the first. */
  ghost predicate IsRebuilt(s: State, t: State, r: map<int, int>) {
    && t.hasher == s.hasher && t.key == s.key && t.nTried == s.nTried && r.Keys == s.info.Keys
    && TriedRenamed(s, r, t) && Dims(t.newTable, NEW_BUCKET_COUNT)
    && (forall k :: k in t.info ==> exists id :: id in r && r[id] == k)
    && (forall id, id' :: id in r && id' in r && id != id' ==> r[id] != r[id'])
    && (forall id :: id in s.info ==> EntryRebuilt(s, t, id, r[id]))
  }

  /** Places in the stream: the new entries come first, and ids rise in each part. */
  lemma RanksRise(s: State, id: int, id2: int)
    requires Consistent(s) && id in s.info && id2 in s.info
    ensures id >= 0 && id2 >= 0
    ensures Rank(s, id) < Rank(s, id2) <==>
            if s.info[id].inTried == s.info[id2].inTried then id < id2 else s.info[id2].inTried
  {
    ListedInConsistent(s);
    OrderInvertsRank(s);
    var tried := s.info[id].inTried;
    if tried == s.info[id2].inTried && id != id2 {
      BelowFinds(s.info, if id < id2 then id2 else id, tried, if id < id2 then id else id2);
    }
  }

  /** After all entries have been read, and before those without a place are forgotten. */
  ghost predicate AllRead(s: State, o: seq<int>, r: map<int, int>, t: State) {
    LinkedSoFar(s, o, r, Bare(t), 0, 0) && s.nNew >= 0 && Placed(t, s.nNew)
    && forall k :: k in t.info && k >= s.nNew ==> t.info[k].refCount == 0
  }

  lemma AllReadInv(s: State, o: seq<int>, r: map<int, int>, t: State)
    requires AllRead(s, o, r, t)
    ensures Inv(t, Unlinked(t), 0) && forall k :: k in Unlinked(t) ==> k >= 0
  {
    var u := Bare(t);
    assert u.info.Keys == t.info.Keys;
    forall k | k in t.info
      ensures t.info[k].inTried <==> k >= s.nNew
    {
      assert k in u.info;
    }
    RebuiltInv(t, s.nNew);
  }

  /** An entry keeps a place exactly if it is the first with this home. */
  lemma FirstIsPlaced(s: State, o: seq<int>, r: map<int, int>, t: State, id: int)
    requires Numbering(s, o, r) && LinkedEntries(s, o, Bare(t)) && Placed(t, s.nNew)
    requires id in s.info && !s.info[id].inTried
    requires forall x :: x in s.info && !s.info[x].inTried ==> (r[x] < r[id] <==> x < id)
    ensures r[id] in t.info && Home(t, r[id]) == Home(s, id) && (Occupant(t, r[id]) == r[id] <==> IsFirst(s, id))
  {
    var u := Bare(t);
    assert u.info.Keys == t.info.Keys;
    forall x | x in s.info
      ensures r[x] in t.info && Home(t, r[x]) == Home(s, x)
    {
      assert o[r[x]] == x && r[x] in u.info;
    }
    var k := Occupant(t, r[id]);
    var x := o[k];
    assert x in s.info && r[x] == k && !s.info[x].inTried && Home(s, x) == Home(s, id);
    if k == r[id] {
      assert o[r[id]] == id;
      forall y | y in s.info && !s.info[y].inTried && y < id
        ensures Home(s, y) != Home(s, id)
      {
        assert o[r[y]] == y && r[y] < s.nNew;
        assert Occupant(t, r[y]) <= r[y];
      }
    }
  }

  lemma EntryIsRebuilt(s: State, o: seq<int>, r: map<int, int>, v: State, t: State, id: int)
    requires Numbering(s, o, r) && LinkedEntries(s, o, Bare(v)) && Placed(v, s.nNew) && Without(v, t, Unlinked(v))
    requires forall k :: k in v.info && k >= s.nNew ==> v.info[k].refCount == 0
    requires id in s.info
             && forall x :: x in s.info && !s.info[x].inTried && !s.info[id].inTried ==> (r[x] < r[id] <==> x < id)
    ensures EntryRebuilt(s, t, id, r[id])
  {
    hide Home, IsFirst;
    var k, u := r[id], Bare(v);
    assert u.info.Keys == v.info.Keys;
    assert o[k] == id && k in u.info && u.info[k] == v.info[k].(refCount := 0);
    if !s.info[id].inTried {
      FirstIsPlaced(s, o, r, v, id);
    }
  }

  lemma AllReadParts(s: State, o: seq<int>, r: map<int, int>, v: State)
    requires AllRead(s, o, r, v)
    ensures Numbering(s, o, r) && LinkedEntries(s, o, Bare(v)) && TriedRenamed(s, r, Bare(v)) && Placed(v, s.nNew)
    ensures Bare(v).info.Keys == v.info.Keys && Dims(v.newTable, NEW_BUCKET_COUNT)
    ensures forall k :: k in v.info && k >= s.nNew ==> v.info[k].refCount == 0
  {
  }

  lemma AllRebuilt(s: State, o: seq<int>, r: map<int, int>, v: State, t: State)
    requires Consistent(s) && r == Ranks(s) && AllRead(s, o, r, v) && Without(v, t, Unlinked(v))
    ensures IsRebuilt(s, t, r)
  {
    hide Consistent, AllRead, LinkedEntries, Placed, IsFirst, Home, Rank;
    AllReadParts(s, o, r, v);
    RenamingIsBijective(s, o, r, Bare(v));
    forall id | id in s.info
      ensures EntryRebuilt(s, t, id, r[id])
    {
      forall x | x in s.info && !s.info[x].inTried && !s.info[id].inTried
        ensures r[x] < r[id] <==> x < id
      {
        RanksRise(s, x, id);
      }
      EntryIsRebuilt(s, o, r, v, t, id);
    }
  }

  lemma ForeignCompose(t0: State, body: seq<Item>, v1: State, tail: seq<Item>, v3: State, buckets: seq<Item>, n: nat,
                       t: State, lost: int)
    requires Filled(t0, 0, 0) && ReadNew(t0, body, 0, false) == Reader(v1, tail, 0)
    requires v1.nNew >= 0 && Filled(v1.(idCount := v1.nNew), 0, v1.nNew)
    requires ReadTried(v1.(idCount := v1.nNew), tail, 0, 0, 0) == Reader(v3, buckets, 0)
    requires Filled(v3, 0, v3.idCount) && v3.nNew <= v3.idCount
    requires ReadBuckets(v3, buckets, 0, 0, n, false) == Reader(v3, [], 0)
    requires RandomOk(v3) && Prune(v3, 0, 0) == (t, lost)
    ensures DecodeBody(t0, body, n, false) == Decoded(t, 0, lost)
  {
    hide ReadNew, ReadTried, ReadBuckets, Prune, RandomOk;
  }

  /** The three phases, when references mean nothing. */
  lemma ForeignBody(s: State, o: seq<int>, r: map<int, int>, t0: State, refs: seq<seq<int>>, body: seq<Item>)
    returns (t: State, lost: int)
    requires 0 <= s.nNew <= |o| && (forall k :: 0 <= k < |o| ==> o[k] in s.info)
    requires body == Entries(s.info, o[0..s.nNew]) + (Entries(s.info, o[s.nNew..]) + Lists(refs))
    requires Consistent(s) && r == Ranks(s) && LoadedSoFar(s, o, r, t0, 0)
    requires Bare(t0) == t0 && Placed(t0, 0) && t0.nNew == s.nNew
    ensures Filled(t0, 0, 0) && DecodeBody(t0, body, |refs|, false) == Decoded(t, 0, lost)
    ensures Consistent(t) && IsRebuilt(s, t, r) && lost == s.nNew - t.nNew
  {
    hide Consistent, LoadedSoFar, LinkedSoFar, ReadNew, ReadTried, ReadBuckets, Prune, Filled, Entries, Lists, Bare,
      Placed, IsRebuilt, DecodeBody, Ranks, Inv, Unlinked;
    var tail := Entries(s.info, o[s.nNew..]) + Lists(refs);
    LoadedIsFilled(s, o, r, t0, 0);
    var t1 := NewPhase(s, o, r, t0, tail);
    BareReadNew(t0, body, 0);
    var v1 := ReadNew(t0, body, 0, false).s;
    var v2 := v1.(idCount := v1.nNew);
    CountedIds(v1, s.nNew);
    var t3 := TriedPhase(s, o, r, t1.(idCount := t1.nNew), Lists(refs));
    BareReadTried(v2, tail, 0, 0);
    var v3 := ReadTried(v2, tail, 0, 0, 0).s;
    ListsSkipped(v3, refs, 0);
    NewlyRead(s, o, r, v2, v3);
    AllReadInv(s, o, r, v3);
    PruneForgets(v3, 0, 0, Unlinked(v3));
    t := Prune(v3, 0, 0).0;
    lost := Prune(v3, 0, 0).1;
    AllRebuilt(s, o, r, v3, t);
    ForeignCompose(t0, body, v1, tail, v3, Lists(refs), |refs|, t, lost);
  }

  /** Setting the counter of ids, once the new entries have been read. */
  lemma CountedIds(v: State, n: int)
    requires Filled(v, 0, n) && Placed(v, n)
    ensures var u := v.(idCount := n);
            Filled(u, 0, n) && Placed(u, n) && u.nNew == v.nNew && Bare(u) == Bare(v).(idCount := n)
    ensures Bare(v).nNew == v.nNew
  {
    var u := v.(idCount := n);
    assert forall k :: k in v.info ==> Home(u, k) == Home(v, k);
  }

  lemma NewlyRead(s: State, o: seq<int>, r: map<int, int>, v: State, t: State)
    requires s.nNew >= 0 && Filled(v, 0, s.nNew) && Placed(v, s.nNew) && Extends(v, t)
             && LinkedSoFar(s, o, r, Bare(t), 0, 0)
    ensures AllRead(s, o, r, t)
  {
    hide LinkedSoFar;
    assert forall k :: k in v.info ==> Home(t, k) == Home(v, k);
  }

  lemma Unmarked(version: nat, buckets: nat)
    ensures (if version != 0 then Xor30(Marked(version, buckets)) else Marked(version, buckets)) == buckets
    ensures 0 < version && buckets < 0x4000_0000 ==> Marked(version, buckets) == buckets + 0x4000_0000
  {
  }

  lemma DecodeForeign(s: State, t: State, version: nat, buckets: nat, body: seq<Item>)
    requires Filled(t, 0, 0) && Filled(t.(key := s.key, nNew := s.nNew, nTried := s.nTried), 0, 0)
    requires version != 1 || buckets != NEW_BUCKET_COUNT
    ensures Decode(t, ForeignHeader(s, version, buckets) + body)
            == DecodeBody(t.(key := s.key, nNew := s.nNew, nTried := s.nTried), body, buckets, false)
  {
    hide DecodeBody, Filled, Xor30, Marked;
    Unmarked(version, buckets);
    var stream := ForeignHeader(s, version, buckets) + body;
    assert stream[6..] == body;
    assert forall i :: 0 <= i < 6 ==> stream[i] == ForeignHeader(s, version, buckets)[i];
  }

  /** Reading what another version has written loses no tried entry, and new ones exactly where homes coincide. */
  lemma ForeignIsRead(s: State, key: int, version: nat, refs: seq<seq<int>>) returns (t: State, lost: int)
    requires Consistent(s) && (version != 1 || |refs| != NEW_BUCKET_COUNT)
    ensures s.idCount >= 0 && Filled(Empty(s.hasher, key), 0, 0)
    ensures Decode(Empty(s.hasher, key), Foreign(s, version, refs)) == Decoded(t, 0, lost)
    ensures Consistent(t) && IsRebuilt(s, t, Ranks(s)) && lost == s.nNew - t.nNew
  {
    var o, r, z := Order(s), Ranks(s), Empty(s.hasher, key);
    var t0 := z.(key := s.key, nNew := s.nNew, nTried := s.nTried);
    NothingReadYet(s, z, t0);
    hide Inv, DecodeBody, Numbering, IsRebuilt, Entries, Lists, Ranks, LoadedSoFar, ForeignHeader, Filled, Decode, Bare,
      Placed;
    OrderIsNumbering(s);
    BodyInOrder(s);
    var body := Entries(s.info, o[0..s.nNew]) + (Entries(s.info, o[s.nNew..]) + Lists(refs));
    t, lost := ForeignBody(s, o, r, t0, refs, body);
    DecodeForeign(s, z, version, |refs|, body);
  }

  lemma NothingReadYet(s: State, z: State, t0: State)
    requires Consistent(s) && z == Empty(s.hasher, z.key) && t0 == z.(key := s.key, nNew := s.nNew, nTried := s.nTried)
    ensures s.idCount >= 0 && IdsOk(s) && Filled(z, 0, 0) && Filled(t0, 0, 0)
    ensures LoadedSoFar(s, Order(s), Ranks(s), t0, 0) && Placed(t0, 0) && Bare(t0) == t0
  {
    OrderIsNumbering(s);
    NothingLoadedYet(s, Ranks(s), t0);
    assert Bare(t0).info == t0.info;
  }

  // ---------- What is written ----------

  /** The stream begins with what it is, and has the entries behind it: the new ones first, by rising ids. */
  lemma StreamIs(s: State)
    requires Consistent(s)
    ensures s.idCount >= 0 && s.nNew >= 0 && s.nTried >= 0 && forall id :: id in s.info ==> id >= 0
    ensures var w := Encode(s);
            && |w| >= 6 + s.nNew + s.nTried
            && w[..6] == [Byte(1), Byte(32), Key(s.key), Int(s.nNew), Int(s.nTried), Int(0x4000_0400)]
            && forall id :: id in s.info ==>
                 var i := s.info[id];
                 && 0 <= Rank(s, id) < s.nNew + s.nTried
                 && w[6 + Rank(s, id)].Entry?
                 && w[6 + Rank(s, id)].record
                    == Record(i.service, i.services, i.time, i.source, i.lastSuccess, i.attempts)
  {
    hide Inv, Below, Buckets, Entries, Encode, Header, Order, Rank, InfoOf;
    OrderSizes(s);
    var o := Order(s);
    EncodeParts(s);
    var w, entries, rest := Encode(s), Entries(s.info, o), Buckets(s, 0);
    HeaderIs(s);
    PartsFollow(Header(s), entries, rest);
    forall id | id in s.info
      ensures 0 <= Rank(s, id) < |o| && w[6 + Rank(s, id)] == Entry(RecordOf(s.info[id]))
    {
      EntryAt(s.info, o, Rank(s, id));
    }
  }

  lemma OrderSizes(s: State)
    requires Consistent(s)
    ensures s.idCount >= 0 && s.nNew >= 0 && s.nTried >= 0 && forall id :: id in s.info ==> id >= 0
    ensures |Order(s)| == s.nNew + s.nTried && forall k :: 0 <= k < |Order(s)| ==> Order(s)[k] in s.info
    ensures forall id :: id in s.info ==> 0 <= Rank(s, id) < |Order(s)| && Order(s)[Rank(s, id)] == id
    ensures Dims(s.newTable, NEW_BUCKET_COUNT)
  {
    hide Rank, Order;
    ListedInConsistent(s);
    OrderInvertsRank(s);
  }

  lemma EncodeParts(s: State)
    requires s.idCount >= 0 && Dims(s.newTable, NEW_BUCKET_COUNT)
    requires forall k :: 0 <= k < |Order(s)| ==> Order(s)[k] in s.info
    ensures Encode(s) == Header(s) + Entries(s.info, Order(s)) + Buckets(s, 0)
  {
    hide Header, Buckets, Below;
    var news, tried := Below(s.info, s.idCount, false), Below(s.info, s.idCount, true);
    assert Entries(s.info, news + tried) == Entries(s.info, news) + Entries(s.info, tried);
  }

  lemma HeaderIs(s: State)
    ensures Header(s) == [Byte(1), Byte(32), Key(s.key), Int(s.nNew), Int(s.nTried), Int(0x4000_0400)]
  {
  }

  lemma PartsFollow(a: seq<Item>, b: seq<Item>, c: seq<Item>)
    ensures (a + b + c)[..|a|] == a && forall k :: 0 <= k < |b| ==> (a + b + c)[|a| + k] == b[k]
  {
  }

  lemma EntryAt(info: map<int, AddrInfo>, ids: seq<int>, k: nat)
    requires k < |ids| && forall j :: 0 <= j < |ids| ==> ids[j] in info
    ensures Entries(info, ids)[k] == Entry(RecordOf(info[ids[k]]))
  {
  }
}
