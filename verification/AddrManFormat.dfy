/** The stored form of the address manager.  Ids, the order of vRandom and the tried table are not
    stored; reading renumbers the entries and rebuilds everything, and loses nothing.

    A stream is a sequence of typed items: the byte forms of the single items are not modelled. */
module AddrManFormat {
  import opened Common
  import opened AddrManSpec

  /** What is stored of an entry: its last try, reference count, table and position are not. */
  datatype Record = Record(service: Service, services: set<nat>, time: nat, source: NetAddr, lastSuccess: int,
                           attempts: int)

  datatype Item = Byte(b: nat) | Key(key: int) | Int(n: int) | Entry(record: Record)

  const BIT_30: int := 0x4000_0000

  /** Bit 30 of a number, inverted. */
  function Xor30(n: int): int { if n / BIT_30 % 2 == 0 then n + BIT_30 else n - BIT_30 }

  function RecordOf(i: AddrInfo): Record {
    Record(i.service, i.services, i.time, i.source, i.lastSuccess, i.attempts)
  }

  function InfoOf(r: Record): AddrInfo {
    AddrInfo(r.service, r.services, r.time, 0, r.source, r.lastSuccess, r.attempts, 0, false, -1)
  }

  // ---------- Writing ----------

  predicate Listed(i: AddrInfo, tried: bool) { if tried then i.inTried else i.refCount != 0 }

  /** The ids below `n` of one kind, in ascending order. */
  function Below(info: map<int, AddrInfo>, n: nat, tried: bool): (r: seq<int>)
    ensures forall k :: 0 <= k < |r| ==> r[k] in info && 0 <= r[k] < n && Listed(info[r[k]], tried)
  {
    if n == 0 then [] else
      var r := Below(info, n - 1, tried);
      if n - 1 in info && Listed(info[n - 1], tried) then r + [n - 1] else r
  }

  function Entries(info: map<int, AddrInfo>, ids: seq<int>): (r: seq<Item>)
    requires forall k :: 0 <= k < |ids| ==> ids[k] in info
    ensures |r| == |ids|
  {
    seq(|ids|, k requires 0 <= k < |ids| => Entry(RecordOf(info[ids[k]])))
  }

  /** The references of a bucket from position `i` on, as indices into the stored new entries. */
  function Slots(s: State, b: nat, i: nat): seq<Item>
    requires Dims(s.newTable, NEW_BUCKET_COUNT) && b < NEW_BUCKET_COUNT && i <= BUCKET_SIZE
    decreases BUCKET_SIZE - i, s.newTable
  {
    if i == BUCKET_SIZE then [] else
      var id := s.newTable[b][i];
      (if id >= 0 then [Int(|Below(s.info, id, false)|)] else []) + Slots(s, b, i + 1)
  }

  function Buckets(s: State, b: nat): seq<Item>
    requires Dims(s.newTable, NEW_BUCKET_COUNT) && b <= NEW_BUCKET_COUNT
    decreases NEW_BUCKET_COUNT - b, s.newTable
  {
    if b == NEW_BUCKET_COUNT then [] else [Int(|Slots(s, b, 0)|)] + (Slots(s, b, 0) + Buckets(s, b + 1))
  }

  /** An id stands in the list behind all smaller ones. */
  lemma {:induction false} BelowFinds(info: map<int, AddrInfo>, n: nat, tried: bool, id: nat)
    requires id in info && id < n && Listed(info[id], tried)
    ensures |Below(info, id, tried)| < |Below(info, n, tried)| && Below(info, n, tried)[|Below(info, id, tried)|] == id
  {
    if id < n - 1 {
      BelowFinds(info, n - 1, tried, id);
    }
  }

  lemma {:induction false} BelowCounts(info: map<int, AddrInfo>, n: nat, tried: bool)
    ensures |Below(info, n, tried)| == |set id | id in info && 0 <= id < n && Listed(info[id], tried)|
  {
    var now := set id | id in info && 0 <= id < n && Listed(info[id], tried);
    if n == 0 {
      assert now == {};
    } else {
      BelowCounts(info, n - 1, tried);
      var before := set id | id in info && 0 <= id < n - 1 && Listed(info[id], tried);
      assert now == before + if n - 1 in info && Listed(info[n - 1], tried) then {n - 1} else {};
    }
  }

  function Header(s: State): (r: seq<Item>)
    ensures |r| == 6
  {
    [Byte(1), Byte(32), Key(s.key), Int(s.nNew), Int(s.nTried), Int(Xor30(NEW_BUCKET_COUNT))]
  }

  function Encode(s: State): seq<Item>
    requires Dims(s.newTable, NEW_BUCKET_COUNT) && s.idCount >= 0
  {
    Header(s)
    + (Entries(s.info, Below(s.info, s.idCount, false))
       + (Entries(s.info, Below(s.info, s.idCount, true)) + Buckets(s, 0)))
  }

  // ---------- Reading ----------

  /** What is left to read and what has been built so far, or nothing after a malformed item. */
  datatype Reader = Broken | Reader(s: State, rest: seq<Item>, lost: int)

  /** The ids in use are those from `lo` up to the counter. */
  ghost predicate Filled(s: State, lo: int, hi: int) {
    && Dims(s.newTable, NEW_BUCKET_COUNT) && Dims(s.tried, TRIED_BUCKET_COUNT) && RandomOk(s)
    && forall id :: id in s.info <==> lo <= id < hi
  }

  /** A new entry under the next id; it gets a reference at once only if the stored table cannot be used. */
  function LoadNew(s: State, n: int, r: Record, usable: bool): (t: State)
    requires Dims(s.newTable, NEW_BUCKET_COUNT)
  {
    var i := InfoOf(r).(randomPos := |s.random|);
    var t := s.(info := s.info[n := i], ids := s.ids[r.service.net := n], random := s.random + [n]);
    var b := s.hasher.newBucket(s.key, r.service, r.source);
    if usable || t.newTable[b][t.NewPos(n, b)] != -1 then t else AddRef(t, n, b)
  }

  ghost function ReadNew(s: State, rest: seq<Item>, n: nat, usable: bool): (r: Reader)
    requires Filled(s, 0, n)
    ensures r.Reader? ==>
            Filled(r.s, 0, if n < s.nNew then s.nNew else n) && r.s.nNew == s.nNew && r.s.nTried == s.nTried
    decreases s.nNew - n
  {
    if n >= s.nNew then Reader(s, rest, 0)
    else if rest == [] || !rest[0].Entry? then Broken
    else ReadNew(LoadNew(s, n, rest[0].record, usable), rest[1..], n + 1, usable)
  }

  /** A tried entry under the next id. */
  function LoadTried(s: State, r: Record): (t: State)
    requires Dims(s.tried, TRIED_BUCKET_COUNT)
  {
    var id := s.idCount;
    var i := InfoOf(r).(randomPos := |s.random|, inTried := true);
    var t := s.(info := s.info[id := i], ids := s.ids[r.service.net := id], random := s.random + [id],
                idCount := id + 1);
    t.(tried := Put(s.tried, t.TriedBucketOf(id), t.TriedPosOf(id), id))
  }

  function TriedSlotOf(s: State, service: Service): int
    requires Dims(s.tried, TRIED_BUCKET_COUNT)
  {
    var b := s.hasher.triedBucket(s.key, service);
    s.tried[b][s.hasher.position(s.key, false, b, service)]
  }

  /** The tried entries; one whose slot is taken is lost. */
  ghost function ReadTried(s: State, rest: seq<Item>, lo: int, n: nat, lost: int): (r: Reader)
    requires Filled(s, lo, s.idCount) && lo <= s.idCount
    ensures r.Reader? ==> Filled(r.s, lo, r.s.idCount) && s.idCount <= r.s.idCount && r.s.nNew == s.nNew
    decreases s.nTried - n
  {
    if n >= s.nTried then Reader(s.(nTried := s.nTried - lost), rest, lost)
    else if rest == [] || !rest[0].Entry? then Broken
    else if TriedSlotOf(s, rest[0].record.service) == -1
      then ReadTried(LoadTried(s, rest[0].record), rest[1..], lo, n + 1, lost)
    else ReadTried(s, rest[1..], lo, n + 1, lost + 1)
  }

  /** One stored reference; indices out of range and references to taken slots are ignored. */
  function LoadRef(s: State, index: int, b: nat, usable: bool): State
    requires Dims(s.newTable, NEW_BUCKET_COUNT) && (usable ==> b < NEW_BUCKET_COUNT)
    requires 0 <= index < s.nNew ==> index in s.info
  {
    if 0 <= index < s.nNew && usable && s.newTable[b][s.NewPos(index, b)] == -1
      && s.info[index].refCount < NEW_BUCKETS_PER_ADDRESS
    then AddRef(s, index, b) else s
  }

  ghost function ReadRefs(s: State, rest: seq<Item>, lo: int, b: nat, n: int, usable: bool): (r: Reader)
    requires Filled(s, lo, s.idCount) && lo <= 0 && s.nNew <= s.idCount && (usable ==> b < NEW_BUCKET_COUNT)
    ensures r.Reader? ==> Filled(r.s, lo, r.s.idCount) && r.s.nNew == s.nNew && r.s.idCount == s.idCount
    decreases n
  {
    if n <= 0 then Reader(s, rest, 0)
    else if rest == [] || !rest[0].Int? then Broken
    else ReadRefs(LoadRef(s, rest[0].n, b, usable), rest[1..], lo, b, n - 1, usable)
  }

  ghost function ReadBuckets(s: State, rest: seq<Item>, lo: int, b: nat, nUBuckets: int, usable: bool): (r: Reader)
    requires Filled(s, lo, s.idCount) && lo <= 0 && s.nNew <= s.idCount && (usable ==> nUBuckets == NEW_BUCKET_COUNT)
    ensures r.Reader? ==> Filled(r.s, lo, r.s.idCount) && r.s.idCount == s.idCount
    decreases nUBuckets - b, rest
  {
    if b >= nUBuckets then Reader(s, rest, 0)
    else if rest == [] || !rest[0].Int? then Broken
    else
      match ReadRefs(s, rest[1..], lo, b, rest[0].n, usable)
      case Broken => Broken
      case Reader(t, more, _) => ReadBuckets(t, more, lo, b + 1, nUBuckets, usable)
  }

  lemma DeleteKeepsRandom(s: State, id: int)
    requires RandomOk(s) && id in s.info
    ensures RandomOk(Delete(s, id)) && Delete(s, id).info.Keys == s.info.Keys - {id}
  {
    hide SwapRandom;
    var last := |s.random| - 1;
    SwapRandomMoves(s, s.info[id].randomPos, last);
  }

  /** Forget the untried entries from id `n` on that nothing refers to. */
  ghost function Prune(s: State, n: int, lost: int): (State, int)
    requires RandomOk(s)
    decreases s.idCount - n
  {
    if n >= s.idCount then (s, lost)
    else if n in s.info && !s.info[n].inTried && s.info[n].refCount == 0 then
      DeleteKeepsRandom(s, n);
      Prune(Delete(s, n), n + 1, lost + 1)
    else Prune(s, n + 1, lost)
  }

  /** The object as read, with the numbers of entries lost; nothing if the stream is malformed. */
  datatype Decoded = Rejected | Decoded(s: State, lostTried: int, lostNew: int)

  predicate HeaderOk(stream: seq<Item>) {
    && |stream| >= 6 && stream[0].Byte? && stream[1].Byte? && stream[1].b == 32
    && stream[2].Key? && stream[3].Int? && stream[4].Int? && stream[5].Int?
  }

  function Lowest(nNew: int): int { if nNew < 0 then nNew else 0 }

  /** Everything behind the header. */
  ghost function DecodeBody(s: State, body: seq<Item>, nUBuckets: int, usable: bool): Decoded
    requires Filled(s, 0, 0) && (usable ==> nUBuckets == NEW_BUCKET_COUNT)
  {
    match ReadNew(s, body, 0, usable)
    case Broken => Rejected
    case Reader(s1, rest1, _) =>
      var lo := Lowest(s1.nNew);
      match ReadTried(s1.(idCount := s1.nNew), rest1, lo, 0, 0)
      case Broken => Rejected
      case Reader(s2, rest2, lostTried) =>
        match ReadBuckets(s2, rest2, lo, 0, nUBuckets, usable)
        case Broken => Rejected
        case Reader(s3, _, _) =>
          var (s4, lostNew) := Prune(s3, lo, 0);
          Decoded(s4, lostTried, lostNew)
  }

  /** Reading into a cleared object that has no entries. */
  ghost function Decode(s: State, stream: seq<Item>): Decoded
    requires Filled(s, 0, 0)
  {
    if !HeaderOk(stream) then Rejected else
      var version := stream[0].b;
      var nUBuckets := if version != 0 then Xor30(stream[5].n) else stream[5].n;
      DecodeBody(s.(key := stream[2].key, nNew := stream[3].n, nTried := stream[4].n), stream[6..], nUBuckets,
                 version == 1 && nUBuckets == NEW_BUCKET_COUNT)
  }

  // ---------- Renumbering ----------

  /** All ids in the order in which their entries are stored; the position is the id after reading. */
  function Order(s: State): seq<int>
    requires s.idCount >= 0
  {
    Below(s.info, s.idCount, false) + Below(s.info, s.idCount, true)
  }

  function Rank(s: State, id: int): int
    requires id in s.info && id >= 0
  {
    if s.info[id].inTried then s.nNew + |Below(s.info, id, true)| else |Below(s.info, id, false)|
  }

  lemma {:induction false} BelowRank(info: map<int, AddrInfo>, n: nat, tried: bool, k: nat)
    requires k < |Below(info, n, tried)|
    ensures |Below(info, Below(info, n, tried)[k], tried)| == k
  {
    if k < |Below(info, n - 1, tried)| {
      BelowRank(info, n - 1, tried, k);
    }
  }

  lemma ListedInConsistent(s: State)
    requires Consistent(s)
    ensures s.idCount >= 0 && forall id :: id in s.info ==> 0 <= id < s.idCount
    ensures forall id :: id in s.info ==>
            (Listed(s.info[id], false) <==> !s.info[id].inTried) && Listed(s.info[id], s.info[id].inTried)
  {
    forall id | id in s.info
      ensures s.info[id].refCount != 0 <==> !s.info[id].inTried
    {
      if s.info[id].inTried {
        forall b | b in s.Refs(id) ensures false {}
        assert s.Refs(id) == {};
      }
    }
  }

  lemma OrderLengths(s: State)
    requires Consistent(s)
    ensures |Below(s.info, s.idCount, false)| == s.nNew && |Below(s.info, s.idCount, true)| == s.nTried
  {
    ListedInConsistent(s);
    BelowCounts(s.info, s.idCount, false);
    BelowCounts(s.info, s.idCount, true);
    assert (set id | id in s.info && 0 <= id < s.idCount && Listed(s.info[id], false)) == s.NewIds();
    assert (set id | id in s.info && 0 <= id < s.idCount && Listed(s.info[id], true)) == s.TriedIds();
  }

  /** Order and Rank are inverse to each other, and the new entries come first. */
  lemma OrderInvertsRank(s: State)
    requires Consistent(s)
    ensures |Order(s)| == s.nNew + s.nTried && s.nNew >= 0 && s.nTried >= 0
    ensures forall id :: id in s.info ==> 0 <= Rank(s, id) < |Order(s)| && Order(s)[Rank(s, id)] == id
    ensures forall k :: 0 <= k < |Order(s)| ==>
                          Order(s)[k] in s.info && Rank(s, Order(s)[k]) == k
                            && (s.info[Order(s)[k]].inTried <==> k >= s.nNew)
  {
    hide Inv, Below;
    OrderLengths(s);
    ListedInConsistent(s);
    forall id | id in s.info
      ensures 0 <= Rank(s, id) < |Order(s)| && Order(s)[Rank(s, id)] == id
    {
      BelowFinds(s.info, s.idCount, s.info[id].inTried, id);
    }
    forall k | 0 <= k < |Order(s)|
      ensures Order(s)[k] in s.info && Rank(s, Order(s)[k]) == k && (s.info[Order(s)[k]].inTried <==> k >= s.nNew)
    {
      if k < s.nNew {
        BelowRank(s.info, s.idCount, false, k);
      } else {
        BelowRank(s.info, s.idCount, true, k - s.nNew);
      }
    }
  }

  /** `o` lists the entries of `s`, the new ones first; `r` gives each its place in the list. */
  ghost predicate Numbering(s: State, o: seq<int>, r: map<int, int>) {
    && |o| == s.nNew + s.nTried && s.nNew >= 0 && s.nTried >= 0
    && r.Keys == s.info.Keys
    && (forall id :: id in s.info ==> 0 <= r[id] < |o| && o[r[id]] == id)
    && (forall k :: 0 <= k < |o| ==> o[k] in s.info && r[o[k]] == k)
    && (forall k :: 0 <= k < |o| ==> (s.info[o[k]].inTried <==> k >= s.nNew))
  }

  /** The id after reading, or the free mark. */
  function Renamed(r: map<int, int>, id: int): int { if id in r then r[id] else -1 }

  // ---------- Loading the entries ----------

  /** Entry `k` as it is once loaded, but for its place in vRandom and its references. */
  function LoadedEntry(s: State, o: seq<int>, k: nat): AddrInfo
    requires k < |o| && o[k] in s.info
  {
    InfoOf(RecordOf(s.info[o[k]])).(inTried := k >= s.nNew)
  }

  /** The first `n` entries of `o` have been loaded into the lists of `t`. */
  ghost predicate LoadedLists(s: State, o: seq<int>, t: State, n: nat)
    requires n <= |o| && forall k :: 0 <= k < |o| ==> o[k] in s.info
  {
    && t.hasher == s.hasher && t.key == s.key && t.nNew == s.nNew && t.nTried == s.nTried
    && Filled(t, 0, n)
    && (forall k :: 0 <= k < n ==> t.info[k] == LoadedEntry(s, o, k).(randomPos := t.info[k].randomPos))
    && (forall k :: 0 <= k < n ==> t.info[k].service.net in t.ids && t.ids[t.info[k].service.net] == k)
    && (forall a :: a in t.ids ==> 0 <= t.ids[a] < n && t.info[t.ids[a]].service.net == a)
  }

  /** The tried table of `t` holds those of the first `n` entries that are tried; the new table is free. */
  ghost predicate LoadedTables(s: State, r: map<int, int>, t: State, n: nat) {
    && Dims(s.tried, TRIED_BUCKET_COUNT) && Dims(t.tried, TRIED_BUCKET_COUNT)
    && t.newTable == FreeTable(NEW_BUCKET_COUNT)
    && (forall b, i :: 0 <= b < TRIED_BUCKET_COUNT && 0 <= i < BUCKET_SIZE ==>
                         t.tried[b][i] == if Renamed(r, s.tried[b][i]) < n then Renamed(r, s.tried[b][i]) else -1)
  }

  /** (Compared with `true` so that the verifier passes it around as one fact.) */
  ghost predicate LoadedSoFar(s: State, o: seq<int>, r: map<int, int>, t: State, n: nat) {
    true == (Numbering(s, o, r) && n <= |o| && LoadedLists(s, o, t, n) && LoadedTables(s, r, t, n))
  }

  lemma LoadNewStep(s: State, o: seq<int>, r: map<int, int>, t: State, n: nat)
    requires IdsOk(s) && TriedOk(s) && LoadedSoFar(s, o, r, t, n) && n < s.nNew
    ensures LoadedSoFar(s, o, r, LoadNew(t, n, RecordOf(s.info[o[n]]), true), n + 1)
  {
    var u := LoadNew(t, n, RecordOf(s.info[o[n]]), true);
    LoadListsStep(s, o, r, t, u, n);
    forall b, i | 0 <= b < TRIED_BUCKET_COUNT && 0 <= i < BUCKET_SIZE
      ensures Renamed(r, s.tried[b][i]) != n
    {}
  }

  /** Appending entry `n` to the lists. */
  lemma LoadListsStep(s: State, o: seq<int>, r: map<int, int>, t: State, u: State, n: nat)
    requires IdsOk(s) && Numbering(s, o, r) && n < |o| && LoadedLists(s, o, t, n)
    requires Dims(u.newTable, NEW_BUCKET_COUNT) && Dims(u.tried, TRIED_BUCKET_COUNT)
    requires u.hasher == t.hasher && u.key == t.key && u.nNew == t.nNew && u.nTried == t.nTried
    requires u.info == t.info[n := LoadedEntry(s, o, n).(randomPos := |t.random|)]
    requires u.ids == t.ids[s.info[o[n]].service.net := n] && u.random == t.random + [n]
    ensures LoadedLists(s, o, u, n + 1)
  {
    hide Filled, IdsOk;
    FreshNet(s, o, r, t, n);
    FilledStep(t, u, n, LoadedEntry(s, o, n));
  }

  lemma FilledStep(t: State, u: State, n: nat, i: AddrInfo)
    requires Filled(t, 0, n) && Dims(u.newTable, NEW_BUCKET_COUNT) && Dims(u.tried, TRIED_BUCKET_COUNT)
    requires u.info == t.info[n := i.(randomPos := |t.random|)] && u.random == t.random + [n]
    ensures Filled(u, 0, n + 1) && forall k :: 0 <= k < n ==> k in t.info
  {
  }

  /** The address of entry `n` is not among those loaded before. */
  lemma FreshNet(s: State, o: seq<int>, r: map<int, int>, t: State, n: nat)
    requires IdsOk(s) && Numbering(s, o, r) && n < |o| && LoadedLists(s, o, t, n)
    ensures forall k :: 0 <= k < n ==> t.info[k].service.net != s.info[o[n]].service.net
  {
    forall k | 0 <= k < n
      ensures t.info[k].service.net != s.info[o[n]].service.net
    {
      assert r[o[k]] == k && r[o[n]] == n;
      DifferentNets(s, o[k], o[n]);
    }
  }

  lemma DifferentNets(s: State, id1: int, id2: int)
    requires IdsOk(s) && id1 in s.info && id2 in s.info && id1 != id2
    ensures s.info[id1].service.net != s.info[id2].service.net
  {
    assert s.ids[s.info[id1].service.net] == id1;
  }

  lemma LoadTriedStep(s: State, o: seq<int>, r: map<int, int>, t: State, n: nat)
    requires IdsOk(s) && TriedOk(s) && LoadedSoFar(s, o, r, t, n) && s.nNew <= n < |o| && t.idCount == n
    ensures TriedSlotOf(t, s.info[o[n]].service) == -1
    ensures LoadedSoFar(s, o, r, LoadTried(t, RecordOf(s.info[o[n]])), n + 1)
  {
    var id := o[n];
    assert id in s.info && -1 !in s.info;
    var u := LoadTried(t, RecordOf(s.info[id]));
    var b, i := s.TriedBucketOf(id), s.TriedPosOf(id);
    assert s.tried[b][i] == id;
    LoadListsStep(s, o, r, t, u, n);
    PutAt(t.tried, b, i, n, TRIED_BUCKET_COUNT);
    LoadTriedTables(s, o, r, t, u, n);
  }

  lemma LoadTriedTables(s: State, o: seq<int>, r: map<int, int>, t: State, u: State, n: nat)
    requires Numbering(s, o, r) && TriedOk(s) && -1 !in s.info && s.nNew <= n < |o| && LoadedTables(s, r, t, n)
             && u.newTable == t.newTable
    requires u.tried == Put(t.tried, s.TriedBucketOf(o[n]), s.TriedPosOf(o[n]), n)
    ensures LoadedTables(s, r, u, n + 1)
  {
    var id := o[n];
    var b, i := s.TriedBucketOf(id), s.TriedPosOf(id);
    assert s.tried[b][i] == id;
    PutAt(t.tried, b, i, n, TRIED_BUCKET_COUNT);
    forall c, j | 0 <= c < TRIED_BUCKET_COUNT && 0 <= j < BUCKET_SIZE
      ensures Renamed(r, s.tried[c][j]) == n <==> c == b && j == i
    {
      if Renamed(r, s.tried[c][j]) == n {
        assert s.tried[c][j] == id;
      }
    }
  }

  lemma {:induction false} ReadNewLoads(s: State, o: seq<int>, r: map<int, int>, t: State, n: nat, more: seq<Item>)
    returns (u: State)
    requires IdsOk(s) && TriedOk(s) && LoadedSoFar(s, o, r, t, n) && n <= s.nNew
    ensures ReadNew(t, Entries(s.info, o[n..s.nNew]) + more, n, true) == Reader(u, more, 0)
    ensures LoadedSoFar(s, o, r, u, s.nNew)
    decreases s.nNew - n
  {
    var rest := Entries(s.info, o[n..s.nNew]) + more;
    if n == s.nNew {
      u := t;
      assert rest == more;
    } else {
      LoadNewStep(s, o, r, t, n);
      assert rest[0] == Entry(RecordOf(s.info[o[n]]));
      assert rest[1..] == Entries(s.info, o[n + 1..s.nNew]) + more;
      u := ReadNewLoads(s, o, r, LoadNew(t, n, RecordOf(s.info[o[n]]), true), n + 1, more);
    }
  }

  lemma ReadTriedEnd(t: State, n: nat, more: seq<Item>)
    requires Filled(t, 0, t.idCount) && 0 <= t.idCount && t.nTried <= n
    ensures ReadTried(t, [] + more, 0, n, 0) == Reader(t, more, 0)
  {
    assert [] + more == more;
  }

  lemma ReadTriedStep(t: State, record: Record, rest: seq<Item>, n: nat)
    requires Filled(t, 0, t.idCount) && 0 <= t.idCount && n < t.nTried && TriedSlotOf(t, record.service) == -1
    requires Filled(LoadTried(t, record), 0, LoadTried(t, record).idCount) && 0 <= LoadTried(t, record).idCount
    ensures ReadTried(t, [Entry(record)] + rest, 0, n, 0) == ReadTried(LoadTried(t, record), rest, 0, n + 1, 0)
  {
    assert ([Entry(record)] + rest)[1..] == rest;
  }

  lemma EntriesUnfold(info: map<int, AddrInfo>, ids: seq<int>, n: nat)
    requires n < |ids| && forall k :: 0 <= k < |ids| ==> ids[k] in info
    ensures Entries(info, ids[n..]) == [Entry(RecordOf(info[ids[n]]))] + Entries(info, ids[n + 1..])
  {
  }

  lemma {:induction false} ReadTriedLoads(s: State, o: seq<int>, r: map<int, int>, t: State, n: nat, more: seq<Item>)
    returns (u: State)
    requires IdsOk(s) && TriedOk(s) && LoadedSoFar(s, o, r, t, n) && s.nNew <= n && t.idCount == n
    ensures ReadTried(t, Entries(s.info, o[n..]) + more, 0, n - s.nNew, 0) == Reader(u, more, 0)
    ensures LoadedSoFar(s, o, r, u, |o|) && u.idCount == |o|
    decreases |o| - n
  {
    hide LoadedSoFar, IdsOk, TriedOk, Filled, Entries, ReadTried, LoadTried, TriedSlotOf;
    LoadedIsFilled(s, o, r, t, n);
    LoadedAreEntries(s, o, r, t, n);
    if n == |o| {
      u := t;
      ReadTriedEnd(t, n - s.nNew, more);
    } else {
      LoadTriedStep(s, o, r, t, n);
      var record := RecordOf(s.info[o[n]]);
      var t1 := LoadTried(t, record);
      LoadTriedCounts(t, record);
      LoadedIsFilled(s, o, r, t1, n + 1);
      EntriesUnfold(s.info, o, n);
      var rest := Entries(s.info, o[n + 1..]);
      ReadTriedStep(t, record, rest + more, n - s.nNew);
      assert [Entry(record)] + rest + more == [Entry(record)] + (rest + more);
      u := ReadTriedLoads(s, o, r, t1, n + 1, more);
    }
  }

  lemma LoadedAreEntries(s: State, o: seq<int>, r: map<int, int>, t: State, n: nat)
    requires LoadedSoFar(s, o, r, t, n)
    ensures n <= |o| == s.nNew + s.nTried && s.nNew >= 0 && forall k :: 0 <= k < |o| ==> o[k] in s.info
    ensures Entries(s.info, o[|o|..]) == [] && t.nTried == s.nTried
  {
  }

  lemma LoadTriedCounts(t: State, record: Record)
    requires Dims(t.tried, TRIED_BUCKET_COUNT)
    ensures LoadTried(t, record).idCount == t.idCount + 1 && LoadTried(t, record).nTried == t.nTried
  {
  }

  ghost function Range(lo: int, hi: int): (r: set<int>)
    requires lo <= hi
    ensures |r| == hi - lo && forall k :: k in r <==> lo <= k < hi
    decreases hi - lo
  {
    if lo == hi then {} else Range(lo, hi - 1) + {hi - 1}
  }

  /** Once everything is loaded, only the references of the new entries are missing. */
  lemma LoadedIsPending(s: State, o: seq<int>, r: map<int, int>, t: State)
    requires Consistent(s) && LoadedSoFar(s, o, r, t, |o|) && t.idCount == |o|
    ensures s.nNew >= 0 && Inv(t, Range(0, s.nNew), 0)
  {
    var pending := Range(0, s.nNew);
    LoadedTriedOk(s, o, r, t);
    assert IdsOk(t) && RandomOk(t);
    LoadedTimesOk(s, o, r, t);
    LoadedRefsOk(s, o, t, pending);
    LoadedCountsOk(s, o, t);
  }

  lemma LoadedTimesOk(s: State, o: seq<int>, r: map<int, int>, t: State)
    requires TimesOk(s) && Numbering(s, o, r) && LoadedLists(s, o, t, |o|)
    ensures TimesOk(t)
  {
    forall k | k in t.info
      ensures t.info[k].lastTry >= 0 && t.info[k].lastSuccess >= 0 && (t.info[k].inTried ==> t.info[k].lastSuccess > 0)
    {
      assert o[k] in s.info && (s.info[o[k]].inTried <==> k >= s.nNew);
      var id := o[k];
      var i := s.info[id];
      assert i.lastSuccess >= 0 && (i.inTried ==> i.lastSuccess > 0);
      assert t.info[k].lastSuccess == i.lastSuccess;
    }
  }

  lemma LoadedTriedOk(s: State, o: seq<int>, r: map<int, int>, t: State)
    requires IdsOk(s) && TriedOk(s) && Numbering(s, o, r) && LoadedLists(s, o, t, |o|) && LoadedTables(s, r, t, |o|)
    ensures TriedOk(t)
  {
    forall b, i | 0 <= b < TRIED_BUCKET_COUNT && 0 <= i < BUCKET_SIZE && t.tried[b][i] != -1
      ensures t.tried[b][i] in t.info && s.tried[b][i] in s.info && t.tried[b][i] == r[s.tried[b][i]]
    {}
    forall k | k in t.info && t.info[k].inTried
      ensures t.tried[t.TriedBucketOf(k)][t.TriedPosOf(k)] == k
    {
      assert s.tried[s.TriedBucketOf(o[k])][s.TriedPosOf(o[k])] == o[k];
    }
  }

  lemma LoadedRefsOk(s: State, o: seq<int>, t: State, pending: set<int>)
    requires (forall k :: 0 <= k < |o| ==> o[k] in s.info) && |o| >= s.nNew && LoadedLists(s, o, t, |o|)
             && t.newTable == FreeTable(NEW_BUCKET_COUNT)
    requires s.nNew >= 0 && pending == Range(0, s.nNew)
    ensures NewOk(t) && RefsOk(t, pending)
  {
    assert NewOk(t);
    forall k | k in t.info
      ensures t.Refs(k) == {}
    {}
  }

  lemma LoadedCountsOk(s: State, o: seq<int>, t: State)
    requires (forall k :: 0 <= k < |o| ==> o[k] in s.info) && |o| == s.nNew + s.nTried && s.nNew >= 0 && s.nTried >= 0
    requires LoadedLists(s, o, t, |o|)
    ensures CountsOk(t, 0)
  {
    hide LoadedLists;
    LoadedKinds(s, o, t);
    assert t.NewIds() == Range(0, s.nNew);
    assert t.TriedIds() == Range(s.nNew, |o|);
  }

  lemma LoadedKinds(s: State, o: seq<int>, t: State)
    requires (forall k :: 0 <= k < |o| ==> o[k] in s.info) && LoadedLists(s, o, t, |o|)
    ensures forall id :: id in t.info <==> 0 <= id < |o|
    ensures forall id :: id in t.info ==> (t.info[id].inTried <==> id >= s.nNew)
    ensures t.nNew == s.nNew && t.nTried == s.nTried
  {
  }

  // ---------- Linking the references ----------

  ghost function Unlinked(t: State): set<int> { set k | k in t.info && !t.info[k].inTried && t.info[k].refCount == 0 }

  /** All entries are loaded, and the slots before slot `i` of bucket `b` have been read. */
  ghost predicate LinkedEntries(s: State, o: seq<int>, t: State)
    requires forall k :: 0 <= k < |o| ==> o[k] in s.info
  {
    && t.hasher == s.hasher && t.key == s.key && t.nNew == s.nNew && t.nTried == s.nTried && t.idCount == |o|
    && (forall k :: k in t.info <==> 0 <= k < |o|)
    && (forall k :: 0 <= k < |o| ==>
                      t.info[k] == LoadedEntry(s, o, k).(randomPos := t.info[k].randomPos,
                                                         refCount := t.info[k].refCount))
  }

  ghost predicate TriedRenamed(s: State, r: map<int, int>, t: State) {
    && Dims(s.tried, TRIED_BUCKET_COUNT) && Dims(t.tried, TRIED_BUCKET_COUNT)
    && (forall b, i :: 0 <= b < TRIED_BUCKET_COUNT && 0 <= i < BUCKET_SIZE ==>
        t.tried[b][i] == Renamed(r, s.tried[b][i]))
  }

  ghost predicate NewRenamed(s: State, r: map<int, int>, t: State, b: nat, i: nat) {
    && Dims(s.newTable, NEW_BUCKET_COUNT) && Dims(t.newTable, NEW_BUCKET_COUNT)
    && (forall c, j :: 0 <= c < NEW_BUCKET_COUNT && 0 <= j < BUCKET_SIZE ==>
                         t.newTable[c][j] == if c < b || (c == b && j < i) then Renamed(r, s.newTable[c][j]) else -1)
  }

  /** (Compared with `true` so that the verifier passes it around as one fact.) */
  ghost predicate LinkedSoFar(s: State, o: seq<int>, r: map<int, int>, t: State, b: nat, i: nat) {
    true == (Numbering(s, o, r) && LinkedEntries(s, o, t) && TriedRenamed(s, r, t) && NewRenamed(s, r, t, b, i)
             && Inv(t, Unlinked(t), 0))
  }

  lemma PendingIsUnlinked(t: State, pending: set<int>, uncounted: int)
    requires Inv(t, pending, uncounted)
    ensures pending == Unlinked(t)
  {
    forall k ensures k in pending <==> k in Unlinked(t) {}
  }

  /** Reading the reference in slot (`b`, `i`) fills the same slot. */
  lemma LoadRefStep(s: State, o: seq<int>, r: map<int, int>, t: State, b: nat, i: nat)
    requires Consistent(s) && LinkedSoFar(s, o, r, t, b, i) && b < NEW_BUCKET_COUNT && i < BUCKET_SIZE
             && s.newTable[b][i] != -1
    ensures s.newTable[b][i] in r
    ensures 0 <= r[s.newTable[b][i]] < t.nNew ==> r[s.newTable[b][i]] in t.info
    ensures LinkedSoFar(s, o, r, LoadRef(t, r[s.newTable[b][i]], b, true), b, i + 1)
  {
    var id := s.newTable[b][i];
    var k := r[id];
    assert id in s.info && !s.info[id].inTried && s.NewPos(id, b) == i && o[k] == id && k < s.nNew;
    assert t.NewPos(k, b) == i && t.newTable[b][i] == -1;
    FewerRefs(s, o, r, t, b, i);
    var u := AddRef(t, k, b);
    AddRefKeeps(t, k, b, Unlinked(t), 0);
    PendingIsUnlinked(u, Unlinked(t) - {k}, 0);
    PutAt(t.newTable, b, i, k, NEW_BUCKET_COUNT);
    assert u.info.Keys == t.info.Keys;
    assert LinkedEntries(s, o, u);
    assert NewRenamed(s, r, u, b, i + 1);
  }

  /** Before its last reference is read, an entry has fewer references than it had when it was written. */
  lemma FewerRefs(s: State, o: seq<int>, r: map<int, int>, t: State, b: nat, i: nat)
    requires NewOk(s) && RefsOk(s, {}) && NewOk(t) && RefsOk(t, Unlinked(t)) && Numbering(s, o, r)
             && LinkedEntries(s, o, t)
    requires NewRenamed(s, r, t, b, i) && b < NEW_BUCKET_COUNT && i < BUCKET_SIZE && s.newTable[b][i] in s.info
    requires s.newTable[b][i] != -1 && r[s.newTable[b][i]] in t.info
    ensures t.info[r[s.newTable[b][i]]].refCount < NEW_BUCKETS_PER_ADDRESS
  {
    var id := s.newTable[b][i];
    var k := r[id];
    assert t.Refs(k) <= s.Refs(id) - {b};
    Smaller(t.Refs(k), s.Refs(id) - {b});
    assert b in s.Refs(id);
    assert t.info[k].refCount == |t.Refs(k)| && s.info[id].refCount == |s.Refs(id)|;
  }

  lemma Smaller(a: set<int>, b: set<int>)
    requires a <= b
    ensures |a| <= |b|
  {
    assert b == a + (b - a);
  }

  lemma LinkedIsFilled(s: State, o: seq<int>, r: map<int, int>, t: State, b: nat, i: nat)
    requires LinkedSoFar(s, o, r, t, b, i)
    ensures Filled(t, 0, t.idCount) && t.nNew <= t.idCount
  {
  }

  lemma FreeSlotStep(s: State, o: seq<int>, r: map<int, int>, t: State, b: nat, i: nat)
    requires LinkedSoFar(s, o, r, t, b, i) && b < NEW_BUCKET_COUNT && i < BUCKET_SIZE && -1 !in s.info
    requires Dims(s.newTable, NEW_BUCKET_COUNT) && s.newTable[b][i] == -1
    ensures LinkedSoFar(s, o, r, t, b, i + 1)
  {
    assert NewRenamed(s, r, t, b, i + 1);
  }

  lemma BucketStep(s: State, o: seq<int>, r: map<int, int>, t: State, b: nat)
    requires LinkedSoFar(s, o, r, t, b, BUCKET_SIZE) && b < NEW_BUCKET_COUNT
    ensures LinkedSoFar(s, o, r, t, b + 1, 0)
  {
    assert NewRenamed(s, r, t, b + 1, 0);
  }

  /** The index stored for a reference is the id its entry has after reading. */
  lemma SlotsUnfold(s: State, r: map<int, int>, b: nat, i: nat)
    requires IdsOk(s) && NewOk(s) && b < NEW_BUCKET_COUNT && i < BUCKET_SIZE
    requires forall id :: id in s.info && !s.info[id].inTried ==> id in r && |Below(s.info, id, false)| == r[id]
    ensures var id := s.newTable[b][i];
            && (id != -1 ==> id in s.info && id in r)
            && Slots(s, b, i) == (if id == -1 then [] else [Int(r[id])]) + Slots(s, b, i + 1)
  {
    var id := s.newTable[b][i];
    assert id != -1 ==> id in s.info && id >= 0;
  }

  lemma SlotsEnd(s: State, b: nat)
    requires Dims(s.newTable, NEW_BUCKET_COUNT) && b < NEW_BUCKET_COUNT
    ensures Slots(s, b, BUCKET_SIZE) == []
  {
  }

  lemma ReadRefsEnd(t: State, b: nat, more: seq<Item>)
    requires Filled(t, 0, t.idCount) && t.nNew <= t.idCount && b < NEW_BUCKET_COUNT
    ensures ReadRefs(t, [] + more, 0, b, 0, true) == Reader(t, more, 0)
  {
    assert [] + more == more;
  }

  lemma ReadRefsStep(t: State, index: int, rest: seq<Item>, b: nat, n: nat)
    requires Filled(t, 0, t.idCount) && t.nNew <= t.idCount && b < NEW_BUCKET_COUNT
    requires Filled(LoadRef(t, index, b, true), 0, t.idCount) && LoadRef(t, index, b, true).nNew == t.nNew
             && LoadRef(t, index, b, true).idCount == t.idCount
    ensures ReadRefs(t, [Int(index)] + rest, 0, b, n + 1, true) ==
            ReadRefs(LoadRef(t, index, b, true), rest, 0, b, n, true)
  {
    assert ([Int(index)] + rest)[1..] == rest;
  }

  lemma {:induction false} ReadRefsLoads(s: State, o: seq<int>, r: map<int, int>, t: State, b: nat, i: nat,
                                         more: seq<Item>)
    returns (u: State)
    requires Consistent(s) && LinkedSoFar(s, o, r, t, b, i) && b < NEW_BUCKET_COUNT && i <= BUCKET_SIZE
    requires forall id :: id in s.info && !s.info[id].inTried ==> id in r && |Below(s.info, id, false)| == r[id]
    ensures Filled(t, 0, t.idCount) && t.nNew <= t.idCount
    ensures ReadRefs(t, Slots(s, b, i) + more, 0, b, |Slots(s, b, i)|, true) == Reader(u, more, 0)
    ensures LinkedSoFar(s, o, r, u, b + 1, 0)
    decreases BUCKET_SIZE - i
  {
    hide Inv, LinkedSoFar, Filled, Slots, ReadRefs, LoadRef;
    SlotsApply(s);
    LinkedIsFilled(s, o, r, t, b, i);
    if i == BUCKET_SIZE {
      u := t;
      SlotsEnd(s, b);
      ReadRefsEnd(t, b, more);
      BucketStep(s, o, r, t, b);
    } else {
      SlotsUnfold(s, r, b, i);
      var id := s.newTable[b][i];
      var rest := Slots(s, b, i + 1);
      if id == -1 {
        FreeSlotStep(s, o, r, t, b, i);
        assert [] + rest == rest;
        u := ReadRefsLoads(s, o, r, t, b, i + 1, more);
      } else {
        LoadRefStep(s, o, r, t, b, i);
        var t1 := LoadRef(t, r[id], b, true);
        LinkedIsFilled(s, o, r, t1, b, i + 1);
        LoadRefKeepsCounts(t, r[id], b);
        ReadRefsStep(t, r[id], rest + more, b, |rest|);
        assert [Int(r[id])] + rest + more == [Int(r[id])] + (rest + more);
        u := ReadRefsLoads(s, o, r, t1, b, i + 1, more);
      }
    }
  }

  lemma SlotsApply(s: State)
    requires Consistent(s)
    ensures IdsOk(s) && NewOk(s) && Dims(s.newTable, NEW_BUCKET_COUNT) && -1 !in s.info
  {
  }

  lemma LoadRefKeepsCounts(t: State, index: int, b: nat)
    requires Filled(t, 0, t.idCount) && t.nNew <= t.idCount && b < NEW_BUCKET_COUNT
    ensures LoadRef(t, index, b, true).nNew == t.nNew && LoadRef(t, index, b, true).idCount == t.idCount
  {
  }

  lemma ReadBucketUnfolds(t: State, n: int, rest: seq<Item>, b: nat, u: State, more: seq<Item>)
    requires Filled(t, 0, t.idCount) && t.nNew <= t.idCount && b < NEW_BUCKET_COUNT
    requires ReadRefs(t, rest, 0, b, n, true) == Reader(u, more, 0)
    ensures Filled(u, 0, u.idCount) && u.nNew <= u.idCount
    ensures ReadBuckets(t, [Int(n)] + rest, 0, b, NEW_BUCKET_COUNT, true) ==
            ReadBuckets(u, more, 0, b + 1, NEW_BUCKET_COUNT, true)
  {
    assert ([Int(n)] + rest)[1..] == rest;
  }

  lemma {:induction false} ReadBucketsLoads(s: State, o: seq<int>, r: map<int, int>, t: State, b: nat)
    returns (u: State)
    requires Consistent(s) && LinkedSoFar(s, o, r, t, b, 0) && b <= NEW_BUCKET_COUNT
    requires forall id :: id in s.info && !s.info[id].inTried ==> id in r && |Below(s.info, id, false)| == r[id]
    ensures Filled(t, 0, t.idCount) && t.nNew <= t.idCount
    ensures ReadBuckets(t, Buckets(s, b), 0, b, NEW_BUCKET_COUNT, true) == Reader(u, [], 0)
    ensures LinkedSoFar(s, o, r, u, NEW_BUCKET_COUNT, 0)
    decreases NEW_BUCKET_COUNT - b
  {
    LinkedIsFilled(s, o, r, t, b, 0);
    assert Dims(s.newTable, NEW_BUCKET_COUNT);
    if b == NEW_BUCKET_COUNT {
      u := t;
    } else {
      hide Inv, LinkedSoFar, Filled, Slots, ReadRefs, ReadBuckets;
      var v := ReadRefsLoads(s, o, r, t, b, 0, Buckets(s, b + 1));
      ReadBucketUnfolds(t, |Slots(s, b, 0)|, Slots(s, b, 0) + Buckets(s, b + 1), b, v, Buckets(s, b + 1));
      u := ReadBucketsLoads(s, o, r, v, b + 1);
    }
  }

  // ---------- The round trip ----------

  /** `t` is `s` with ids renamed by `r`: same key, counts, tables, references and stored records. */
  ghost predicate Isomorphic(s: State, t: State, r: map<int, int>) {
    && r.Keys == s.info.Keys
    && (forall id :: id in r ==> r[id] in t.info)
    && (forall k :: k in t.info ==> exists id :: id in r && r[id] == k)
    && (forall id, id' :: id in r && id' in r && id != id' ==> r[id] != r[id'])
    && t.hasher == s.hasher && t.key == s.key && t.nNew == s.nNew && t.nTried == s.nTried
    && (forall id :: id in s.info ==>
                       && RecordOf(t.info[r[id]]) == RecordOf(s.info[id])
                       && t.info[r[id]].inTried == s.info[id].inTried
                       && t.info[r[id]].refCount == s.info[id].refCount)
    && TriedRenamed(s, r, t)
    && NewRenamed(s, r, t, NEW_BUCKET_COUNT, 0)
  }

  /** With all references read, every entry has as many as it had, and none is left without one. */
  lemma AllLinked(s: State, o: seq<int>, r: map<int, int>, t: State)
    requires Consistent(s) && LinkedSoFar(s, o, r, t, NEW_BUCKET_COUNT, 0)
    ensures Consistent(t) && Isomorphic(s, t, r)
  {
    forall id | id in s.info
      ensures r[id] in t.info && t.info[r[id]].refCount == s.info[id].refCount
    {
      SameRefs(s, o, r, t, id);
    }
    assert Unlinked(t) == {} by {
      forall k | k in t.info && !t.info[k].inTried
        ensures t.info[k].refCount != 0
      {
        var id := o[k];
        assert id in s.info && r[id] == k && s.info[id].refCount != 0;
      }
    }
    RenamingIsBijective(s, o, r, t);
  }

  lemma SameRefs(s: State, o: seq<int>, r: map<int, int>, t: State, id: int)
    requires IdsOk(s) && NewOk(s) && RefsOk(s, {}) && NewOk(t) && RefsOk(t, Unlinked(t))
    requires Numbering(s, o, r) && LinkedEntries(s, o, t) && NewRenamed(s, r, t, NEW_BUCKET_COUNT, 0) && id in s.info
    ensures r[id] in t.info && t.info[r[id]].refCount == s.info[id].refCount
  {
    var k := r[id];
    assert o[k] == id && t.info[k].service == s.info[id].service;
    forall b | 0 <= b < NEW_BUCKET_COUNT
      ensures b in t.Refs(k) <==> b in s.Refs(id)
    {
      var other := s.newTable[b][s.NewPos(id, b)];
      assert t.newTable[b][t.NewPos(k, b)] == Renamed(r, other);
    }
    assert t.Refs(k) == s.Refs(id);
    assert t.info[k].refCount == |t.Refs(k)| && s.info[id].refCount == |s.Refs(id)|;
  }

  lemma RenamingIsBijective(s: State, o: seq<int>, r: map<int, int>, t: State)
    requires Numbering(s, o, r) && LinkedEntries(s, o, t)
    ensures forall id :: id in r ==> r[id] in t.info
    ensures forall k :: k in t.info ==> exists id :: id in r && r[id] == k
    ensures forall id, id' :: id in r && id' in r && id != id' ==> r[id] != r[id']
    ensures forall id :: id in s.info ==>
            RecordOf(t.info[r[id]]) == RecordOf(s.info[id]) && t.info[r[id]].inTried == s.info[id].inTried
  {
    forall k | k in t.info
      ensures exists id :: id in r && r[id] == k
    {
      var id := o[k];
      assert id in r && r[id] == k;
    }
    forall id, id' | id in r && id' in r && id != id'
      ensures r[id] != r[id']
    {
      assert o[r[id]] == id && o[r[id']] == id';
    }
  }

  lemma {:induction false} NothingToPrune(t: State, n: int)
    requires RandomOk(t) && forall id :: id in t.info && !t.info[id].inTried ==> t.info[id].refCount != 0
    ensures Prune(t, n, 0) == (t, 0)
    decreases t.idCount - n
  {
    if n < t.idCount {
      NothingToPrune(t, n + 1);
    }
  }

  /** The renaming under which an object comes back. */
  ghost function Ranks(s: State): map<int, int>
    requires IdsOk(s)
  {
    map id | id in s.info :: Rank(s, id)
  }

  lemma OrderIsNumbering(s: State)
    requires Consistent(s)
    ensures Numbering(s, Order(s), Ranks(s))
    ensures forall id :: id in s.info && !s.info[id].inTried ==> |Below(s.info, id, false)| == Ranks(s)[id]
  {
    OrderInvertsRank(s);
  }

  /** What is written behind the header is what the phases of reading expect. */
  lemma BodyInOrder(s: State)
    requires Consistent(s)
    ensures var o := Order(s);
            && (forall k :: 0 <= k < |o| ==> o[k] in s.info) && 0 <= s.nNew <= |o|
            && o[0..s.nNew] == Below(s.info, s.idCount, false) && o[s.nNew..] == Below(s.info, s.idCount, true)
  {
    OrderInvertsRank(s);
    OrderLengths(s);
  }

  lemma NothingLoadedYet(s: State, r: map<int, int>, t: State)
    requires Consistent(s) && Numbering(s, Order(s), r)
    requires t == Empty(s.hasher, t.key).(key := s.key, nNew := s.nNew, nTried := s.nTried)
    ensures LoadedSoFar(s, Order(s), r, t, 0) && Filled(t, 0, 0)
  {
    assert LoadedLists(s, Order(s), t, 0);
    assert forall b, i :: 0 <= b < TRIED_BUCKET_COUNT && 0 <= i < BUCKET_SIZE ==> Renamed(r, s.tried[b][i]) >= -1;
  }

  lemma NothingLinkedYet(s: State, o: seq<int>, r: map<int, int>, t: State)
    requires Consistent(s) && LoadedSoFar(s, o, r, t, |o|) && t.idCount == |o|
    ensures LinkedSoFar(s, o, r, t, 0, 0)
  {
    LoadedIsPending(s, o, r, t);
    PendingIsUnlinked(t, Range(0, s.nNew), 0);
    assert NewRenamed(s, r, t, 0, 0) && TriedRenamed(s, r, t);
    assert LinkedEntries(s, o, t);
  }

  lemma IdCountIsLate(s: State, o: seq<int>, r: map<int, int>, t: State)
    requires s.nNew >= 0 && LoadedSoFar(s, o, r, t, s.nNew)
    ensures LoadedSoFar(s, o, r, t.(idCount := s.nNew), s.nNew)
  {
    assert LoadedLists(s, o, t.(idCount := s.nNew), s.nNew);
  }

  lemma LoadedIsFilled(s: State, o: seq<int>, r: map<int, int>, t: State, n: nat)
    requires LoadedSoFar(s, o, r, t, n)
    ensures Filled(t, 0, n) && t.nNew == s.nNew && t.nTried == s.nTried
  {
  }

  lemma AllReferenced(s: State, o: seq<int>, r: map<int, int>, t: State)
    requires Consistent(s) && LinkedSoFar(s, o, r, t, NEW_BUCKET_COUNT, 0)
    ensures RandomOk(t) && forall id :: id in t.info && !t.info[id].inTried ==> t.info[id].refCount != 0
  {
    AllLinked(s, o, r, t);
  }

  /** `t1` comes after the new entries, `t3` after the tried ones, `t` after the references. */
  ghost predicate Phases(t0: State, body: seq<Item>, t1: State, tail: seq<Item>, t3: State, buckets: seq<Item>,
                         t: State)
    requires Filled(t0, 0, 0)
  {
    && ReadNew(t0, body, 0, true) == Reader(t1, tail, 0)
    && t1.nNew >= 0 && Filled(t1.(idCount := t1.nNew), 0, t1.nNew)
    && ReadTried(t1.(idCount := t1.nNew), tail, 0, 0, 0) == Reader(t3, buckets, 0)
    && Filled(t3, 0, t3.idCount) && t3.nNew <= t3.idCount
    && ReadBuckets(t3, buckets, 0, 0, NEW_BUCKET_COUNT, true) == Reader(t, [], 0)
    && RandomOk(t) && Prune(t, 0, 0) == (t, 0)
  }

  lemma PhasesCompose(t0: State, body: seq<Item>, t1: State, tail: seq<Item>, t3: State, buckets: seq<Item>, t: State)
    requires Filled(t0, 0, 0) && Phases(t0, body, t1, tail, t3, buckets, t)
    ensures DecodeBody(t0, body, NEW_BUCKET_COUNT, true) == Decoded(t, 0, 0)
  {
    hide ReadNew, ReadTried, ReadBuckets, Prune, RandomOk;
  }

  lemma NewPhase(s: State, o: seq<int>, r: map<int, int>, t0: State, tail: seq<Item>) returns (t1: State)
    requires Consistent(s) && LoadedSoFar(s, o, r, t0, 0) && Filled(t0, 0, 0) && 0 <= s.nNew <= |o|
    requires forall k :: 0 <= k < |o| ==> o[k] in s.info
    ensures ReadNew(t0, Entries(s.info, o[0..s.nNew]) + tail, 0, true) == Reader(t1, tail, 0)
    ensures t1.nNew == s.nNew && Filled(t1.(idCount := t1.nNew), 0, t1.nNew)
            && LoadedSoFar(s, o, r, t1.(idCount := t1.nNew), s.nNew)
  {
    t1 := ReadNewLoads(s, o, r, t0, 0, tail);
    IdCountIsLate(s, o, r, t1);
    LoadedIsFilled(s, o, r, t1.(idCount := s.nNew), s.nNew);
  }

  lemma TriedPhase(s: State, o: seq<int>, r: map<int, int>, t2: State, buckets: seq<Item>) returns (t3: State)
    requires Consistent(s) && 0 <= s.nNew <= |o| && LoadedSoFar(s, o, r, t2, s.nNew) && t2.idCount == s.nNew
             && Filled(t2, 0, t2.idCount)
    requires forall k :: 0 <= k < |o| ==> o[k] in s.info
    ensures ReadTried(t2, Entries(s.info, o[s.nNew..]) + buckets, 0, 0, 0) == Reader(t3, buckets, 0)
    ensures LinkedSoFar(s, o, r, t3, 0, 0)
  {
    t3 := ReadTriedLoads(s, o, r, t2, s.nNew, buckets);
    NothingLinkedYet(s, o, r, t3);
  }

  lemma BucketPhase(s: State, o: seq<int>, r: map<int, int>, t3: State) returns (t: State)
    requires Consistent(s) && LinkedSoFar(s, o, r, t3, 0, 0) && Dims(s.newTable, NEW_BUCKET_COUNT)
    requires forall id :: id in s.info && !s.info[id].inTried ==> id in r && |Below(s.info, id, false)| == r[id]
    ensures Filled(t3, 0, t3.idCount) && t3.nNew <= t3.idCount
    ensures ReadBuckets(t3, Buckets(s, 0), 0, 0, NEW_BUCKET_COUNT, true) == Reader(t, [], 0)
    ensures RandomOk(t) && Prune(t, 0, 0) == (t, 0) && LinkedSoFar(s, o, r, t, NEW_BUCKET_COUNT, 0)
  {
    t := ReadBucketsLoads(s, o, r, t3, 0);
    AllReferenced(s, o, r, t);
    NothingToPrune(t, 0);
  }

  lemma BodyRoundTrip(s: State, o: seq<int>, r: map<int, int>, t0: State) returns (t: State)
    requires Consistent(s) && LoadedSoFar(s, o, r, t0, 0) && Filled(t0, 0, 0) && 0 <= s.nNew <= |o|
             && Dims(s.newTable, NEW_BUCKET_COUNT)
    requires forall id :: id in s.info && !s.info[id].inTried ==> id in r && |Below(s.info, id, false)| == r[id]
    requires forall k :: 0 <= k < |o| ==> o[k] in s.info
    ensures DecodeBody(t0, Entries(s.info, o[0..s.nNew]) + (Entries(s.info, o[s.nNew..]) + Buckets(s, 0)),
                       NEW_BUCKET_COUNT, true)
            == Decoded(t, 0, 0)
    ensures LinkedSoFar(s, o, r, t, NEW_BUCKET_COUNT, 0)
  {
    hide Inv, LoadedSoFar, LinkedSoFar, ReadNew, ReadTried, ReadBuckets, Prune, Filled, Entries, Buckets, DecodeBody,
      Dims, RandomOk;
    var tail := Entries(s.info, o[s.nNew..]) + Buckets(s, 0);
    var t1 := NewPhase(s, o, r, t0, tail);
    var t3 := TriedPhase(s, o, r, t1.(idCount := t1.nNew), Buckets(s, 0));
    t := BucketPhase(s, o, r, t3);
    PhasesCompose(t0, Entries(s.info, o[0..s.nNew]) + tail, t1, tail, t3, Buckets(s, 0), t);
  }

  lemma RekeyedIsFilled(t: State, key: int, nNew: int, nTried: int)
    requires Filled(t, 0, 0)
    ensures Filled(t.(key := key, nNew := nNew, nTried := nTried), 0, 0)
  {
  }

  lemma DecodeHeader(s: State, t: State, body: seq<Item>)
    requires Filled(t, 0, 0) && Filled(t.(key := s.key, nNew := s.nNew, nTried := s.nTried), 0, 0)
    ensures Decode(t, Header(s) + body)
            == DecodeBody(t.(key := s.key, nNew := s.nNew, nTried := s.nTried), body, NEW_BUCKET_COUNT, true)
  {
    hide DecodeBody, Filled;
    var stream := Header(s) + body;
    assert stream[6..] == body;
    assert forall i :: 0 <= i < 6 ==> stream[i] == Header(s)[i];
    assert Xor30(Xor30(NEW_BUCKET_COUNT)) == NEW_BUCKET_COUNT;
  }

  /** Writing a consistent object and reading it into an empty one loses no entry, and gives it back up to ids. */
  lemma RoundTrip(s: State, key: int) returns (t: State)
    requires Consistent(s)
    ensures Filled(Empty(s.hasher, key), 0, 0) && Decode(Empty(s.hasher, key), Encode(s)) == Decoded(t, 0, 0)
    ensures Consistent(t) && Isomorphic(s, t, Ranks(s))
  {
    var o, r := Order(s), Ranks(s);
    OrderIsNumbering(s);
    BodyInOrder(s);
    var t0 := Empty(s.hasher, key).(key := s.key, nNew := s.nNew, nTried := s.nTried);
    NothingLoadedYet(s, r, t0);
    assert Filled(Empty(s.hasher, key), 0, 0);
    assert IdsOk(s) && Dims(s.newTable, NEW_BUCKET_COUNT);
    hide Inv, IdsOk, Dims, DecodeBody, Numbering, Isomorphic, Entries, Buckets, Ranks, LoadedSoFar, Header, Filled,
      Decode;
    t := BodyRoundTrip(s, o, r, t0);
    AllLinked(s, o, r, t);
    RekeyedIsFilled(Empty(s.hasher, key), s.key, s.nNew, s.nTried);
    DecodeHeader(s, Empty(s.hasher, key), Entries(s.info, o[0..s.nNew])
                 + (Entries(s.info, o[s.nNew..]) + Buckets(s, 0)));
  }
}
