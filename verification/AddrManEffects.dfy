/** What the operations of the address manager do to each entry and each slot, told without saying how. */
module AddrManEffects {
  import opened Common
  import opened AddrManSpec

  /** The same in all that is known about an address; where it is listed may differ. */
  predicate SameRecord(i: AddrInfo, j: AddrInfo) {
    && i.service == j.service && i.services == j.services && i.time == j.time && i.source == j.source
    && i.lastTry == j.lastTry && i.lastSuccess == j.lastSuccess && i.attempts == j.attempts
  }

  /** No entry but `id` is new, or known to be different. */
  ghost predicate OthersKeep(s: State, t: State, id: int) {
    forall x :: x in t.info && x != id ==> x in s.info && SameRecord(s.info[x], t.info[x])
  }

  /** Whether a service is known under its own port, and then by which id. */
  ghost predicate Knows(s: State, service: Service, id: int) { id in s.info && s.info[id].service == service }

  lemma KnownByLookup(s: State, service: Service)
    requires Consistent(s)
    ensures forall id :: Knows(s, service, id) <==> id != -1 && id == Lookup(s, service)
  {
  }

  // ---------- Freeing a slot ----------

  /** The entry that goes with the last reference to it, if slot `i` of bucket `b` is freed. */
  ghost function Dropped(s: State, b: nat, i: nat): set<int>
    requires NewOk(s) && b < NEW_BUCKET_COUNT && i < BUCKET_SIZE
  {
    var d := s.newTable[b][i];
    if d != -1 && s.info[d].refCount == 1 then {d} else {}
  }

  lemma ClearNewIs(s: State, b: nat, i: nat, pending: set<int>, uncounted: int)
    requires b < NEW_BUCKET_COUNT && i < BUCKET_SIZE && Inv(s, pending, uncounted)
    ensures NewOk(s) && RandomOk(s)
    ensures var t := ClearNew(s, b, i);
            && t.info.Keys == s.info.Keys - Dropped(s, b, i)
            && (forall x :: x in t.info ==>
                SameRecord(s.info[x], t.info[x]) && t.info[x].inTried == s.info[x].inTried
                && t.info[x].refCount == s.info[x].refCount - if x == s.newTable[b][i] then 1 else 0)
            && t.hasher == s.hasher && t.key == s.key && t.tried == s.tried
            && t.newTable == if s.newTable[b][i] == -1 then s.newTable else Put(s.newTable, b, i, -1)
  {
    hide Inv, RandomOk, SwapRandom, Delete;
    TablesOk(s, pending, uncounted);
    var id := s.newTable[b][i];
    if id != -1 {
      UnrefKeeps(s, b, i, pending, uncounted);
      UnrefIs(s, b, i);
      var t := Unref(s, b, i);
      if t.info[id].refCount == 0 {
        TablesOk(t, pending + {id}, uncounted);
        DeleteIs(t, id);
        DeleteKeeps(t, id, pending + {id}, uncounted);
      }
    }
  }

  // ---------- Moving an entry to the tried table ----------

  /** What is in each slot of the new table after `id` has left it and `e`, if there is one, has entered. */
  ghost predicate NewSlotsAre(s: State, t: Table, id: int, e: int)
    requires Dims(s.newTable, NEW_BUCKET_COUNT) && Dims(t, NEW_BUCKET_COUNT) && (e != -1 ==> e in s.info)
  {
    forall b, i :: 0 <= b < NEW_BUCKET_COUNT && 0 <= i < BUCKET_SIZE ==>
      t[b][i] ==
      if e != -1 && b == s.hasher.newBucket(s.key, s.info[e].service, s.info[e].source)
         && i == s.hasher.position(s.key, true, b, s.info[e].service) then e
      else if s.newTable[b][i] == id then -1
      else s.newTable[b][i]
  }

  /** The entry that has to go when `e` moves to the new table, if its only reference is in the way. */
  ghost predicate IsDisplaced(s: State, id: int, e: int, x: int)
    requires Dims(s.newTable, NEW_BUCKET_COUNT) && (e != -1 ==> e in s.info) && x in s.info
  {
    && e != -1 && x != id && s.info[x].refCount == 1
    && var b := s.hasher.newBucket(s.key, s.info[e].service, s.info[e].source);
       s.newTable[b][s.hasher.position(s.key, true, b, s.info[e].service)] == x
  }

  lemma UnlistIs(s: State, id: int)
    requires Consistent(s) && id in s.info && !s.info[id].inTried
    ensures var t := Unlist(s, id);
            && t.info == s.info[id := s.info[id].(refCount := 0)] && t.tried == s.tried
            && t.hasher == s.hasher && t.key == s.key
            && Dims(t.newTable, NEW_BUCKET_COUNT) && NewSlotsAre(s, t.newTable, id, -1)
  {
    UnlistKeeps(s, id);
  }

  lemma EvictIs(s: State, b: nat, i: nat)
    requires b < TRIED_BUCKET_COUNT && i < BUCKET_SIZE && TriedOk(s) && s.tried[b][i] != -1
    ensures var (t, e) := (Evict(s, b, i), s.tried[b][i]);
            && e in s.info && t.info == s.info[e := s.info[e].(inTried := false)] && t.tried == Put(s.tried, b, i, -1)
            && t.hasher == s.hasher && t.key == s.key && t.newTable == s.newTable
  {
  }

  lemma DemoteIs(s: State, e: int, pending: set<int>, uncounted: int)
    requires Inv(s, pending, uncounted) && e in pending
    ensures NewOk(s) && RandomOk(s) && e in s.info && s.info[e].refCount == 0
    ensures var t := Demote(s, e, pending, uncounted);
            var b := s.hasher.newBucket(s.key, s.info[e].service, s.info[e].source);
            var i := s.NewPos(e, b);
            && t.info.Keys == s.info.Keys - Dropped(s, b, i) && e in t.info && t.info[e].refCount == 1
            && (forall x :: x in t.info ==> SameRecord(s.info[x], t.info[x]) && t.info[x].inTried == s.info[x].inTried)
            && (forall x :: x in t.info && x != e && x != s.newTable[b][i] ==> t.info[x].refCount == s.info[x].refCount)
            && t.hasher == s.hasher && t.key == s.key && t.tried == s.tried && t.newTable == Put(s.newTable, b, i, e)
  {
    hide Inv, RandomOk, ClearNew;
    InvTables(s, pending, uncounted);
    var b := s.hasher.newBucket(s.key, s.info[e].service, s.info[e].source);
    var i := s.NewPos(e, b);
    NotThere(s, e, pending, uncounted, b, i);
    ClearNewIs(s, b, i, pending, uncounted);
    PutTwice(s.newTable, b, i, -1, e, NEW_BUCKET_COUNT);
    DemoteBody(s, e, pending, uncounted);
    hide Dropped, NewOk, Put;
  }

  lemma DemoteBody(s: State, e: int, pending: set<int>, uncounted: int)
    requires Inv(s, pending, uncounted) && e in pending
    ensures e in s.info && NewOk(s) && RandomOk(s)
    ensures var b := s.hasher.newBucket(s.key, s.info[e].service, s.info[e].source);
            var c := ClearNew(s, b, s.NewPos(e, b));
            && e in c.info && Dims(c.newTable, NEW_BUCKET_COUNT)
            && Demote(s, e, pending, uncounted) == AddRef(c, e, b).(nNew := c.nNew + 1)
  {
    UnreferencedNowhere(s, e, pending);
    var b := s.hasher.newBucket(s.key, s.info[e].service, s.info[e].source);
    var i := s.NewPos(e, b);
    ClearNewSpares(s, b, i, pending, uncounted, e);
    PutAt(s.newTable, b, i, -1, NEW_BUCKET_COUNT);
    hide ClearNew;
  }

  lemma NotThere(s: State, e: int, pending: set<int>, uncounted: int, b: nat, i: nat)
    requires Inv(s, pending, uncounted) && e in pending && b < NEW_BUCKET_COUNT && i < BUCKET_SIZE
    ensures NewOk(s) && RandomOk(s) && e != -1 && s.newTable[b][i] != e
    ensures e in s.info && s.info[e].refCount == 0 && !s.info[e].inTried
  {
    UnreferencedNowhere(s, e, pending);
  }

  lemma PutTwice(t: Table, b: nat, i: nat, id: int, id2: int, buckets: nat)
    requires Dims(t, buckets) && b < buckets && i < BUCKET_SIZE
    ensures Dims(Put(t, b, i, id), buckets) && Put(Put(t, b, i, id), b, i, id2) == Put(t, b, i, id2)
  {
    assert t[b][i := id][i := id2] == t[b][i := id2];
  }

  /** The entry takes its tried slot; an entry that was there gets a slot of the new table in its stead, from which
      another may have to go. */
  lemma MakeTriedEffect(s: State, id: int)
    requires Consistent(s) && id in s.info && !s.info[id].inTried && s.info[id].lastSuccess > 0
    ensures TriedOk(s) && NewOk(s)
    ensures var t := MakeTried(s, id);
            var (b, i) := (s.TriedBucketOf(id), s.TriedPosOf(id));
            var e := s.tried[b][i];
            && id in t.info && SameRecord(s.info[id], t.info[id]) && t.info[id].inTried && t.info[id].refCount == 0
            && OthersKeep(s, t, id) && t.tried == Put(s.tried, b, i, id)
            && Dims(t.newTable, NEW_BUCKET_COUNT) && NewSlotsAre(s, t.newTable, id, e)
            && (e != -1 ==> e in t.info && !t.info[e].inTried && t.info[e].refCount == 1)
            && (forall x :: x in t.info && x != id && x != e ==> t.info[x].inTried == s.info[x].inTried)
            && (forall x :: x in s.info ==> (x !in t.info <==> IsDisplaced(s, id, e, x)))
  {
    hide Inv, Unlist, Evict, Demote, IdsOk, RandomOk, RefsOk, CountsOk, TimesOk, TriedOk, NewOk, NewSlotsAre, Put,
      Dims;
    InvTables(s, {}, 0);
    UnlistKeeps(s, id);
    UnlistIs(s, id);
    var t1 := Unlist(s, id);
    InvTables(t1, {id}, 1);
    TriedDims(s, t1.TriedBucketOf(id), t1.TriedPosOf(id));
    var b, i := s.TriedBucketOf(id), s.TriedPosOf(id);
    var e := s.tried[b][i];
    var t := MakeTried(s, id);
    if e != -1 {
      EvictedEffect(s, t1, id);
    }
  }

  lemma TriedDims(s: State, b: nat, i: nat)
    requires TriedOk(s) && NewOk(s) && b < TRIED_BUCKET_COUNT && i < BUCKET_SIZE
    ensures Dims(s.tried, TRIED_BUCKET_COUNT) && |s.tried| == TRIED_BUCKET_COUNT && |s.tried[b]| == BUCKET_SIZE
    ensures s.tried[b][i] != -1 ==> s.tried[b][i] in s.info && s.info[s.tried[b][i]].inTried
    ensures Dims(s.newTable, NEW_BUCKET_COUNT)
  {
  }

  /** With `id` off the new table already, the occupant of its tried slot moves to the new table. */
  lemma EvictedEffect(s: State, t1: State, id: int)
    requires Inv(t1, {id}, 1) && id in s.info && -1 !in s.info && t1.info == s.info[id := s.info[id].(refCount := 0)]
    requires t1.hasher == s.hasher && t1.key == s.key && TriedOk(t1) && NewOk(t1) && Dims(s.newTable, NEW_BUCKET_COUNT)
    requires NewSlotsAre(s, t1.newTable, id, -1) && t1.tried == s.tried && !s.info[id].inTried
    requires t1.tried[t1.TriedBucketOf(id)][t1.TriedPosOf(id)] != -1
    ensures var (b, i) := (t1.TriedBucketOf(id), t1.TriedPosOf(id));
            var e := t1.tried[b][i];
            && e in s.info && e != id && Inv(Evict(t1, b, i), {id, e}, 2)
            && var t := Demote(Evict(t1, b, i), e, {id, e}, 2);
               && id in t.info && SameRecord(s.info[id], t.info[id]) && t.info[id].refCount == 0
               && OthersKeep(s, t, id) && Dims(t.tried, TRIED_BUCKET_COUNT) && t.hasher == s.hasher && t.key == s.key
               && Put(t.tried, b, i, id) == Put(s.tried, b, i, id)
               && Dims(t.newTable, NEW_BUCKET_COUNT) && NewSlotsAre(s, t.newTable, id, e)
               && e in t.info && !t.info[e].inTried && t.info[e].refCount == 1
               && (forall x :: x in t.info && x != id && x != e ==> t.info[x].inTried == s.info[x].inTried)
               && forall x :: x in s.info ==> (x !in t.info <==> IsDisplaced(s, id, e, x))
  {
    hide Inv, Evict, Demote, IdsOk, RandomOk, RefsOk, CountsOk, TimesOk, TriedOk, NewOk, NewSlotsAre, Put, Dims,
      Dropped;
    var b, i := t1.TriedBucketOf(id), t1.TriedPosOf(id);
    TriedDims(t1, b, i);
    var e := t1.tried[b][i];
    EvictKeeps(t1, b, i, {id}, 1);
    EvictIs(t1, b, i);
    var t2 := Evict(t1, b, i);
    assert {id} + {e} == {id, e};
    InvTables(t2, {id, e}, 2);
    DemoteIs(t2, e, {id, e}, 2);
    DemoteSpares(t2, e, {id, e}, 2, id);
    PutTwice(s.tried, b, i, -1, id, TRIED_BUCKET_COUNT);
    DemotedSlots(s, t1, t2, Demote(t2, e, {id, e}, 2), id, e);
    DroppedIsDisplaced(s, t1, t2, id, e);
  }

  lemma DroppedIsDisplaced(s: State, t1: State, t2: State, id: int, e: int)
    requires Dims(s.newTable, NEW_BUCKET_COUNT) && Dims(t1.newTable, NEW_BUCKET_COUNT) && NewOk(t2) && e != id
    requires NewSlotsAre(s, t1.newTable, id, -1) && t2.newTable == t1.newTable && -1 !in s.info && id in s.info
    requires e in s.info && e in t2.info && t2.hasher == s.hasher && t2.key == s.key
    requires t2.info == s.info[id := s.info[id].(refCount := 0)][e := s.info[e].(inTried := false)]
    ensures var b := s.hasher.newBucket(s.key, s.info[e].service, s.info[e].source);
            forall x :: x in s.info ==> (x in Dropped(t2, b, t2.NewPos(e, b)) <==> IsDisplaced(s, id, e, x))
  {
  }

  lemma DemotedSlots(s: State, t1: State, t2: State, t3: State, id: int, e: int)
    requires Dims(s.newTable, NEW_BUCKET_COUNT) && Dims(t1.newTable, NEW_BUCKET_COUNT)
    requires NewSlotsAre(s, t1.newTable, id, -1)
    requires t2.newTable == t1.newTable && e in s.info && e != -1 && e in t2.info && t2.hasher == s.hasher
    requires t2.key == s.key && t2.info[e].service == s.info[e].service && t2.info[e].source == s.info[e].source
    requires var b := s.hasher.newBucket(s.key, s.info[e].service, s.info[e].source);
             t3.newTable == Put(t2.newTable, b, t2.NewPos(e, b), e)
    ensures Dims(t3.newTable, NEW_BUCKET_COUNT) && NewSlotsAre(s, t3.newTable, id, e)
  {
    var b := s.hasher.newBucket(s.key, s.info[e].service, s.info[e].source);
    PutAt(t2.newTable, b, t2.NewPos(e, b), e, NEW_BUCKET_COUNT);
  }

  lemma InvTables(s: State, pending: set<int>, uncounted: int)
    requires Inv(s, pending, uncounted)
    ensures TriedOk(s) && NewOk(s) && -1 !in s.info
    ensures forall id :: id in pending ==> id in s.info && s.info[id].refCount == 0 && !s.info[id].inTried
  {
  }

  // ---------- What the operations do ----------

  /** A service that is known, and was reached: the success is noted and attempts are forgotten, but its time is left
      alone; it gets its tried slot unless it has it, and no other entry changes but in its place. */
  lemma GoodEffect(s: State, service: Service, time: int, id: int)
    requires Consistent(s) && time > 0 && Knows(s, service, id)
    ensures TriedOk(s) && NewOk(s)
    ensures var t := Good(s, service, time);
            && id in t.info && OthersKeep(s, t, id)
            && t.info[id].lastSuccess == time && t.info[id].lastTry == time && t.info[id].attempts == 0
            && t.info[id].service == service && t.info[id].services == s.info[id].services
            && t.info[id].time == s.info[id].time && t.info[id].source == s.info[id].source
            && t.info[id].inTried
            && var e := if s.info[id].inTried then -1 else s.tried[s.TriedBucketOf(id)][s.TriedPosOf(id)];
               && Dims(t.newTable, NEW_BUCKET_COUNT)
               && t.tried == Put(s.tried, s.TriedBucketOf(id), s.TriedPosOf(id), id)
               && NewSlotsAre(s, t.newTable, id, e)
               && (e != -1 ==> e in t.info && !t.info[e].inTried && t.info[e].refCount == 1)
               && (forall x :: x in t.info && x != id && x != e ==> t.info[x].inTried == s.info[x].inTried)
               && (forall x :: x in s.info ==> (x !in t.info <==> IsDisplaced(s, id, e, x)))
  {
    hide Inv, RandomOk, RefsOk, CountsOk, TimesOk, IdsOk, MakeTried;
    KnownByLookup(s, service);
    InvTables(s, {}, 0);
    var i := s.info[id].(lastSuccess := time, lastTry := time, attempts := 0);
    var u := s.WithInfo(id, i);
    RewriteKeeps(s, id, i);
    if s.info[id].inTried {
      TriedSlots(s, id);
    } else {
      MakeTriedEffect(u, id);
      RewrittenSlots(s, u, id, MakeTried(u, id).newTable, s.tried[s.TriedBucketOf(id)][s.TriedPosOf(id)]);
    }
  }

  /** A tried entry is in its slot, and nowhere in the new table. */
  lemma TriedSlots(s: State, id: int)
    requires TriedOk(s) && NewOk(s) && id in s.info && s.info[id].inTried && -1 !in s.info
    ensures Put(s.tried, s.TriedBucketOf(id), s.TriedPosOf(id), id) == s.tried && NewSlotsAre(s, s.newTable, id, -1)
  {
    var b, i := s.TriedBucketOf(id), s.TriedPosOf(id);
    assert s.tried[b] == s.tried[b][i := id];
  }

  lemma RewrittenSlots(s: State, u: State, id: int, t: Table, e: int)
    requires TriedOk(s) && NewOk(s) && id in s.info && u.info.Keys == s.info.Keys && u.newTable == s.newTable
    requires forall x :: x in s.info ==>
               && u.info[x].service == s.info[x].service && u.info[x].source == s.info[x].source
               && u.info[x].refCount == s.info[x].refCount
    requires u.hasher == s.hasher && u.key == s.key && Dims(t, NEW_BUCKET_COUNT) && (e != -1 ==> e in s.info)
    ensures NewSlotsAre(u, t, id, e) ==> NewSlotsAre(s, t, id, e)
    ensures forall x :: x in s.info ==> (IsDisplaced(u, id, e, x) <==> IsDisplaced(s, id, e, x))
  {
  }

  /** A service that is not known, or only under another port, changes nothing. */
  lemma UnknownIsLeft(s: State, service: Service, time: int)
    requires Consistent(s) && time > 0 && forall id :: !Knows(s, service, id)
    ensures Good(s, service, time) == s && Attempt(s, service, time) == s && Connected(s, service, time) == s
  {
    hide Inv, MakeTried;
    KnownByLookup(s, service);
    LookupPossible(s);
    assert !Knows(s, service, Lookup(s, service));
  }

  lemma LookupPossible(s: State)
    requires Consistent(s)
    ensures forall a :: a in s.ids ==> s.ids[a] in s.info && s.ids[a] >= 0
  {
  }

  /** An attempt is counted and dated; the entry stays where it is, and nothing else changes. */
  lemma AttemptEffect(s: State, service: Service, time: int, id: int)
    requires Consistent(s) && time > 0 && Knows(s, service, id)
    ensures var t := Attempt(s, service, time);
            && t == s.(info := t.info) && t.info.Keys == s.info.Keys
            && (forall x :: x in s.info && x != id ==> t.info[x] == s.info[x])
            && t.info[id].attempts == s.info[id].attempts + 1 && t.info[id].lastTry == time
            && SameRecord(s.info[id], t.info[id].(attempts := s.info[id].attempts, lastTry := s.info[id].lastTry))
            && t.info[id].inTried == s.info[id].inTried && t.info[id].refCount == s.info[id].refCount
  {
    hide Inv;
    KnownByLookup(s, service);
  }

  /** The time of a service we are connected to is brought up to date, but not more often than every twenty minutes. */
  lemma ConnectedEffect(s: State, service: Service, time: int, id: int)
    requires Consistent(s) && Knows(s, service, id) && time < 0x1_0000_0000
    ensures var t := Connected(s, service, time);
            && t == s.(info := t.info) && t.info.Keys == s.info.Keys
            && (forall x :: x in s.info && x != id ==> t.info[x] == s.info[x])
            && t.info[id].time == (if time > s.info[id].time + 1200 then time else s.info[id].time)
            && SameRecord(s.info[id], t.info[id].(time := s.info[id].time))
            && t.info[id].inTried == s.info[id].inTried && t.info[id].refCount == s.info[id].refCount
  {
    hide Inv;
    KnownByLookup(s, service);
  }

  // ---------- Adding ----------

  /** An entry is not worth keeping if it has not been tried for a minute, and has a time in the future, or none, or is
      a month old, or has failed three times without ever a success, or ten times in the last week. */
  lemma TerribleIff(i: AddrInfo, now: int)
    ensures IsTerrible(i, now) <==>
            && (i.lastTry == 0 || i.lastTry < now - 60)
            && (|| i.time > now + 600 || i.time == 0 || i.time < now - 2592000
                || (i.lastSuccess == 0 && i.attempts >= 3)
                || (i.lastSuccess < now - 604800 && i.attempts >= 10))
  {
  }

  /** Where an address from some source belongs in the new table. */
  ghost predicate IsSlotFor(s: State, service: Service, source: NetAddr, b: nat, i: nat) {
    b == s.hasher.newBucket(s.key, service, source) && i == s.hasher.position(s.key, true, b, service)
  }

  /** An unknown address: the new entry has the next id, one reference, and a time reduced by the penalty; another entry
      goes if the new one takes the place of its last reference. */
  lemma AddNewEffect(s: State, addr: Address, source: NetAddr, penalty: int, now: int, rnd: nat, b: nat, i: nat)
    requires Consistent(s) && addr.service.net !in s.ids && IsSlotFor(s, addr.service, source, b, i)
    ensures NewOk(s) && s.idCount !in s.info
    ensures var (t, n) := (Add(s, true, addr, source, penalty, now, rnd).0, s.idCount);
            var stored := addr.service.net in t.ids;
            && OthersKeep(s, t, n) && t.tried == s.tried && (stored <==> n in t.info)
            && t.newTable == (if stored then Put(s.newTable, b, i, n) else s.newTable)
            && (stored ==>
                && t.ids[addr.service.net] == n && t.info[n].service == addr.service
                && t.info[n].services == addr.services && t.info[n].source == source
                && (penalty >= 0 && addr.time < 0x1_0000_0000 ==>
                    t.info[n].time == if addr.time > penalty then addr.time - penalty else 0)
                && t.info[n].lastTry == t.info[n].lastSuccess == t.info[n].attempts == 0
                && t.info[n].refCount == 1 && !t.info[n].inTried)
            && forall x :: x in s.info ==> (x !in t.info <==> stored && x in Dropped(s, b, i))
  {
    hide Inv, RandomOk, ClearNew, Delete, IsTerrible, Put, NewOk, Dropped, Place, Placeable, MayTake, Dims;
    NextIsFree(s);
    var n, u := s.idCount, Register(s, addr, source, penalty);
    RegisterKeeps(s, addr, source, penalty);
    RegisteredTable(s, addr, source, penalty, b, i);
    PlacedIs(u, n, source, now, b, i);
    DroppedUnknown(s, u, n, b, i);
    AddKeeps(s, true, addr, source, penalty, now, rnd);
    var t := Add(s, true, addr, source, penalty, now, rnd).0;
    assert t == Place(u, n, source, now) && OthersKeep(s, t, n);
    StoredIff(s, t, n, addr.service.net);
  }

  lemma StoredIff(s: State, t: State, n: int, net: NetAddr)
    requires Consistent(s) && Consistent(t) && OthersKeep(s, t, n) && net !in s.ids
    requires n in t.info ==> t.info[n].service.net == net
    ensures net in t.ids <==> n in t.info
    ensures n in t.info ==> t.ids[net] == n
  {
    hide Inv;
    NextIsFree(s);
    NextIsFree(t);
    assert net in t.ids ==> t.ids[net] == n;
  }

  /** What placing an entry without references does. */
  lemma PlacedIs(u: State, n: int, source: NetAddr, now: int, b: nat, i: nat)
    requires Placeable(u, n) && u.info[n].refCount == 0 && IsSlotFor(u, u.info[n].service, source, b, i)
    requires NewOk(u) && RandomOk(u) && u.newTable[b][i] != n && (u.newTable[b][i] != -1 ==> u.newTable[b][i] in u.info)
    ensures var t := Place(u, n, source, now);
            && t.tried == u.tried
            && (forall x :: x in t.info ==>
                x in u.info && SameRecord(u.info[x], t.info[x]) && t.info[x].inTried == u.info[x].inTried)
            && if MayTake(u, n, u.newTable[b][i], now) then
                 && n in t.info && t.info[n].refCount == 1 && t.newTable == Put(u.newTable, b, i, n)
                 && t.info.Keys == u.info.Keys - Dropped(u, b, i)
               else n !in t.info && t.newTable == u.newTable && t.info.Keys == u.info.Keys - {n}
  {
    hide Inv, RandomOk, ClearNew, Delete, IsTerrible, MayTake, Dropped;
    if MayTake(u, n, u.newTable[b][i], now) {
      ClearNewIs(u, b, i, {n}, 0);
      ClearNewSpares(u, b, i, {n}, 0, n);
      PutTwice(u.newTable, b, i, -1, n, NEW_BUCKET_COUNT);
    } else {
      DeleteIs(u, n);
      DeleteKeeps(u, n, {n}, 0);
    }
  }

  lemma DroppedUnknown(s: State, u: State, n: int, b: nat, i: nat)
    requires NewOk(s) && NewOk(u) && b < NEW_BUCKET_COUNT && i < BUCKET_SIZE && u.newTable == s.newTable
    requires n !in s.info && forall x :: x in s.info ==> x in u.info && u.info[x] == s.info[x]
    ensures Dropped(u, b, i) == Dropped(s, b, i) && n !in Dropped(s, b, i)
  {
  }

  lemma NextIsFree(s: State)
    requires Consistent(s)
    ensures NewOk(s) && RandomOk(s) && s.idCount !in s.info && s.idCount >= 0 && -1 !in s.info
    ensures Dims(s.newTable, NEW_BUCKET_COUNT)
    ensures forall a :: a in s.ids ==> s.ids[a] in s.info && s.info[s.ids[a]].service.net == a
    ensures forall id :: id in s.info ==> s.info[id].service.net in s.ids && s.ids[s.info[id].service.net] == id
  {
  }

  lemma RegisteredTable(s: State, addr: Address, source: NetAddr, penalty: int, b: nat, i: nat)
    requires Consistent(s) && addr.service.net !in s.ids && IsSlotFor(s, addr.service, source, b, i)
    ensures var u := Register(s, addr, source, penalty);
            && NewOk(s) && NewOk(u) && RandomOk(u) && Inv(u, {s.idCount}, 0) && s.newTable[b][i] != s.idCount
            && (s.newTable[b][i] != -1 ==> s.newTable[b][i] in s.info)
            && b == u.hasher.newBucket(u.key, u.info[s.idCount].service, source) && i == u.NewPos(s.idCount, b)
  {
    RegisterKeeps(s, addr, source, penalty);
  }

  /** The time a known address gets: the new one less the penalty, if there is none yet, or if it is older by more than
      an hour and the penalty; by more than a day and the penalty, if the new one is not of today. */
  lemma RefreshedTimeIs(i: AddrInfo, addr: Address, penalty: int, now: int)
    requires penalty >= 0 && addr.time < 0x1_0000_0000
    ensures RefreshedTime(i, addr, penalty, now) ==
            if addr.time != 0 && (i.time == 0
                                  || addr.time - i.time > penalty + (if addr.time > now - 86400 then 3600 else 86400))
            then if addr.time > penalty then addr.time - penalty else 0
            else i.time
  {
  }

  /** A known address: its time and services are brought up to date.  It gets another reference if it is newer than
      what was known, not tried, has fewer than eight, and is lucky; and if the slot is free or its occupant may go. */
  lemma AddKnownEffect(s: State, addr: Address, source: NetAddr, penalty: int, now: int, rnd: nat, id: int, b: nat,
                       i: nat)
    requires Consistent(s) && id in s.info && s.info[id].service.net == addr.service.net
    requires IsSlotFor(s, s.info[id].service, source, b, i)
    ensures NewOk(s) && !Add(s, true, addr, source, penalty, now, rnd).1
    ensures var t := Add(s, true, addr, source, penalty, now, rnd).0;
            var d := s.newTable[b][i];
            && id in t.info && OthersKeep(s, t, id) && t.tried == s.tried
            && t.info[id].time == RefreshedTime(s.info[id], addr, penalty, now)
            && t.info[id].services == s.info[id].services + addr.services
            && SameRecord(s.info[id], t.info[id].(time := s.info[id].time, services := s.info[id].services))
            && t.info[id].inTried == s.info[id].inTried
            && var more := addr.time > t.info[id].time && !s.info[id].inTried && s.info[id].refCount < 8
                           && (s.info[id].refCount == 0 || rnd == 0) && d != id
                           && (d == -1 || IsTerrible(s.info[d], now)
                               || (s.info[d].refCount > 1 && s.info[id].refCount == 0));
               && t.newTable == (if more then Put(s.newTable, b, i, id) else s.newTable)
               && t.info[id].refCount == s.info[id].refCount + (if more then 1 else 0)
               && forall x :: x in s.info ==> (x !in t.info <==> more && x in Dropped(s, b, i))
  {
    hide Inv, RandomOk, ClearNew, Delete, IsTerrible, RefreshedTime, Dropped, RefsOk;
    NextIsFree(s);
    RefCountIs(s, id);
    RefreshKeeps(s, addr, penalty, now);
    var u := Refresh(s, addr, penalty, now);
    NextIsFree(u);
    if WantsReference(u.info[id], addr, rnd) && s.newTable[b][i] != id && MayTake(u, id, s.newTable[b][i], now) {
      ClearNewIs(u, b, i, {}, 0);
      ClearNewSpares(u, b, i, {}, 0, id);
      PutTwice(s.newTable, b, i, -1, id, NEW_BUCKET_COUNT);
      DroppedAsBefore(s, u, id, b, i);
    }
  }

  lemma DroppedAsBefore(s: State, u: State, id: int, b: nat, i: nat)
    requires NewOk(s) && NewOk(u) && b < NEW_BUCKET_COUNT && i < BUCKET_SIZE && u.newTable == s.newTable
    requires id in s.info && s.newTable[b][i] != id
    requires forall x :: x in s.info && x != id ==> x in u.info && u.info[x] == s.info[x]
    ensures Dropped(u, b, i) == Dropped(s, b, i)
  {
  }

  lemma RefCountIs(s: State, id: int)
    requires Consistent(s) && id in s.info
    ensures 0 <= s.info[id].refCount <= 8 && (!s.info[id].inTried ==> s.info[id].refCount > 0)
  {
    assert s.info[id].refCount == |s.Refs(id)|;
  }

  // ---------- Counting attempts ----------

  /** The attempts on a service since it was last reached, or since the beginning. */
  function AttemptsSince(ops: seq<Op>, service: Service): nat {
    if ops == [] then 0
    else
      match ops[|ops| - 1]
      case OpGood(reached, _) => if reached == service then 0 else AttemptsSince(ops[..|ops| - 1], service)
      case OpAttempt(tried, _) => AttemptsSince(ops[..|ops| - 1], service) + if tried == service then 1 else 0
      case _ => AttemptsSince(ops[..|ops| - 1], service)
  }

  predicate Reached(ops: seq<Op>, service: Service) {
    exists k :: 0 <= k < |ops| && ops[k].OpGood? && ops[k].service == service
  }

  /** An operation changes the attempts on record only by what it is about. */
  lemma AttemptsOf(s: State, op: Op, id: int)
    requires Consistent(s) && Legal(s, op) && id in s.info && id in Apply(s, op).info
    ensures Apply(s, op).info[id].service == s.info[id].service
    ensures Apply(s, op).info[id].attempts ==
            match op
            case OpGood(reached, _) => if reached == s.info[id].service then 0 else s.info[id].attempts
            case OpAttempt(tried, _) => s.info[id].attempts + if tried == s.info[id].service then 1 else 0
            case _ => s.info[id].attempts
  {
    hide Inv, Good, Attempt, Connected, Add, GetAddr, RefreshedTime, IsTerrible;
    match op
    case OpGood(reached, time) =>
      if s.info[id].service == reached {
        GoodEffect(s, reached, time, id);
      } else if other :| Knows(s, reached, other) {
        GoodEffect(s, reached, time, other);
      } else {
        UnknownIsLeft(s, reached, time);
      }
    case OpAttempt(tried, time) =>
      if s.info[id].service == tried {
        AttemptEffect(s, tried, time, id);
      } else if other :| Knows(s, tried, other) {
        AttemptEffect(s, tried, time, other);
      } else {
        UnknownIsLeft(s, tried, time);
      }
    case OpConnected(service, time) => ConnectedKeepsAttempts(s, service, time, id);
    case OpAdd(routable, addr, source, penalty, now, rnd) =>
      AddKeepsAttempts(s, routable, addr, source, penalty, now, rnd, id);
    case OpGetAddr(now, rnds) => GetAddrKeepsRecords(s, now, rnds);
  }

  lemma ConnectedKeepsAttempts(s: State, service: Service, time: int, id: int)
    requires Consistent(s) && id in s.info
    ensures var t := Connected(s, service, time);
            id in t.info && t.info[id].attempts == s.info[id].attempts && t.info[id].service == s.info[id].service
  {
    hide Inv;
    LookupPossible(s);
  }

  lemma AddKeepsAttempts(s: State, routable: bool, addr: Address, source: NetAddr, penalty: int, now: int, rnd: nat,
                         id: int)
    requires Consistent(s) && id in s.info && id in Add(s, routable, addr, source, penalty, now, rnd).0.info
    ensures SameRecord(s.info[id], Add(s, routable, addr, source, penalty, now, rnd).0.info[id]
                                   .(time := s.info[id].time, services := s.info[id].services))
  {
    hide Inv, RandomOk, RefreshedTime, IsTerrible, Add;
    NextIsFree(s);
    if !routable {
      NotRoutable(s, addr, source, penalty, now, rnd);
    } else if addr.service.net in s.ids {
      var known := s.ids[addr.service.net];
      var b := s.hasher.newBucket(s.key, s.info[known].service, source);
      AddKnownEffect(s, addr, source, penalty, now, rnd, known, b, s.NewPos(known, b));
    } else {
      var b := s.hasher.newBucket(s.key, addr.service, source);
      AddNewEffect(s, addr, source, penalty, now, rnd, b, s.hasher.position(s.key, true, b, addr.service));
    }
  }

  lemma NotRoutable(s: State, addr: Address, source: NetAddr, penalty: int, now: int, rnd: nat)
    requires Consistent(s)
    ensures Add(s, false, addr, source, penalty, now, rnd) == (s, false)
  {
  }

  /** Handing out addresses only changes the order in which entries are listed. */
  lemma {:induction false} ShuffleKeepsRecords(s: State, n: nat, found: seq<Address>, limit: nat, now: int,
                                               rnds: seq<nat>)
    requires Consistent(s) && Draws(rnds, |s.random|) && n <= |s.random|
    ensures var t := Shuffle(s, n, found, limit, now, rnds).0;
            && t == s.(info := t.info, random := t.random) && t.info.Keys == s.info.Keys
            && multiset(t.random) == multiset(s.random)
            && forall id :: id in s.info ==> t.info[id] == s.info[id].(randomPos := t.info[id].randomPos)
    decreases |s.random| - n
  {
    hide Inv, IsTerrible, Presentable, SwapRandom;
    if n < |s.random| && |found| < limit {
      var (t, more) := Draw(s, n, n + rnds[n], found, now);
      SwapIs(s, n, n + rnds[n]);
      ShuffleKeepsRecords(t, n + 1, more, limit, now, rnds);
    }
  }

  lemma SwapIs(s: State, p: nat, q: nat)
    requires Consistent(s) && p < |s.random| && q < |s.random|
    ensures RandomOk(s)
    ensures var t := SwapRandom(s, p, q);
            && t == s.(info := t.info, random := t.random) && t.info.Keys == s.info.Keys
            && multiset(t.random) == multiset(s.random)
            && forall id :: id in s.info ==> t.info[id] == s.info[id].(randomPos := t.info[id].randomPos)
  {
    SwapRandomMoves(s, p, q);
  }

  lemma GetAddrKeepsRecords(s: State, now: int, rnds: seq<nat>)
    requires Consistent(s) && Draws(rnds, |s.random|)
    ensures var t := GetAddr(s, now, rnds).0;
            && t == s.(info := t.info, random := t.random) && t.info.Keys == s.info.Keys
            && multiset(t.random) == multiset(s.random)
            && forall id :: id in s.info ==> t.info[id] == s.info[id].(randomPos := t.info[id].randomPos)
  {
    ShuffleKeepsRecords(s, 0, [], NodeLimit(|s.random|), now, rnds);
  }

  /** A peer is sent 23 in a hundred of the addresses, rounded down, but at least 4 and at most 2500. */
  lemma NodeLimitIs(size: nat)
    ensures var n := NodeLimit(size);
            && 4 <= n <= 2500
            && (n > 4 ==> 100 * n <= 23 * size) && (n < 2500 ==> 23 * size < 100 * (n + 1))
  {
  }

  /** In any run, as long as an entry is there, the attempts on record are those since its service was last reached. */
  lemma {:induction false} AttemptsAreCounted(states: seq<State>, ops: seq<Op>, since: nat, till: nat, id: int)
    requires IsRun(states, ops) && since <= till < |states|
    requires forall k :: since <= k <= till ==> id in states[k].info
    ensures states[till].info[id].service == states[since].info[id].service
    ensures var service := states[since].info[id].service;
            states[till].info[id].attempts ==
            AttemptsSince(ops[since..till], service)
            + if Reached(ops[since..till], service) then 0 else states[since].info[id].attempts
    decreases till
  {
    hide Inv, Apply;
    if since < till {
      AttemptsAreCounted(states, ops, since, till - 1, id);
      var s, op, service := states[till - 1], ops[till - 1], states[since].info[id].service;
      EveryRunIsConsistent(states, ops, till - 1);
      assert Step(s, op, states[till - 1 + 1]);
      AttemptsOf(s, op, id);
      assert ops[since..till] == ops[since..till - 1] + [op];
      ReachedSnoc(ops[since..till - 1], op, service);
      assert ops[since..till][..|ops[since..till]| - 1] == ops[since..till - 1];
    }
  }

  lemma ReachedSnoc(ops: seq<Op>, op: Op, service: Service)
    ensures Reached(ops + [op], service) <==> Reached(ops, service) || (op.OpGood? && op.service == service)
  {
    if Reached(ops, service) {
      var k :| 0 <= k < |ops| && ops[k].OpGood? && ops[k].service == service;
      assert (ops + [op])[k] == ops[k];
    }
    if op.OpGood? && op.service == service {
      assert (ops + [op])[|ops|] == op;
    }
  }
}
