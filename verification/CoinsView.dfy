/** Stacks of write-back caches over a database, of any depth.  Seen through the topmost cache, a stack
    behaves like one plain map of unspent outputs in which fully spent entries are absent. */
module CoinsView {
  import opened CoinsSpec

  /** Block hashes; 0 is the null hash. */
  type Hash = nat

  /** A cached entry: `dirty` if it may differ from the parent's, `isFresh` if the parent has nothing unspent. */
  datatype CacheEntry = CacheEntry(coins: Coins, dirty: bool, isFresh: bool)

  type CacheMap = map<TxId, CacheEntry>

  /** `m` as changed by the entries on top of it. */
  ghost function Overlay(m: UtxoMap, entries: CacheMap): UtxoMap {
    map t | t in m.Keys + entries.Keys && (t in entries ==> !entries[t].coins.IsPruned())
      :: if t in entries then entries[t].coins else m[t]
  }

  ghost function Unspent(m: UtxoMap): UtxoMap { map t | t in m && !m[t].IsPruned() :: m[t] }

  /** What a lookup may answer about `t`: a fully spent entry is as good as none. */
  ghost predicate Answers(m: UtxoMap, t: TxId, found: bool, coins: Coins) {
    if found && !coins.IsPruned() then t in m && m[t] == coins else t !in m
  }

  /** A fully spent entry has no outputs left at all. */
  predicate Tidy(c: Coins) { c.IsPruned() ==> c.vout == [] }

  /** An entry that belongs to a cache over `m`; `shared` tells whether the parent caches it too. */
  ghost predicate EntryOk(m: UtxoMap, shared: bool, t: TxId, e: CacheEntry) {
    && (e.isFresh ==> t !in m)
    && (!e.dirty ==> Answers(m, t, true, e.coins))
    && (!e.isFresh ==> shared)
    && Tidy(e.coins)
  }

  /** What writing one child entry down does to the map below: clean entries are not written. */
  function Written(m: UtxoMap, t: TxId, e: CacheEntry): UtxoMap { if e.dirty then Put(m, t, e.coins) else m }

  /** All entries of a child are right about the map below. */
  ghost predicate EntriesOk(m: UtxoMap, shared: set<TxId>, entries: CacheMap) {
    forall t :: t in entries ==> EntryOk(m, t in shared, t, entries[t])
  }

  /** Entries may be written down one by one, in any order. */
  lemma WriteOne(m: UtxoMap, shared: set<TxId>, entries: CacheMap, t: TxId)
    requires EntriesOk(m, shared, entries) && t in entries
    ensures EntryOk(m, t in shared, t, entries[t])
    ensures Overlay(Written(m, t, entries[t]), entries - {t}) == Overlay(m, entries)
    ensures EntriesOk(Written(m, t, entries[t]), shared, entries - {t})
  {
    hide Coins.IsPruned;
    WrittenOverlay(m, entries, t);
  }

  lemma WrittenOverlay(m: UtxoMap, entries: CacheMap, t: TxId)
    requires t in entries && (!entries[t].dirty ==> Answers(m, t, true, entries[t].coins))
    ensures Overlay(Written(m, t, entries[t]), entries - {t}) == Overlay(m, entries)
  {
    hide Coins.IsPruned;
  }

  lemma ShareMore(m: UtxoMap, shared: set<TxId>, more: set<TxId>, entries: CacheMap)
    requires EntriesOk(m, shared, entries) && shared * entries.Keys <= more
    ensures EntriesOk(m, more, entries)
  {
  }

  lemma NothingOnTop(m: UtxoMap)
    ensures Overlay(m, map[]) == m
    ensures forall shared :: EntriesOk(m, shared, map[])
  {
  }

  /** A clean entry that says what is below changes nothing. */
  lemma AddClean(m: UtxoMap, shared: set<TxId>, entries: CacheMap, t: TxId, c: Coins)
    requires EntriesOk(m, shared, entries) && Answers(m, t, true, c) && Tidy(c) && t !in entries
    requires !c.IsPruned() ==> t in shared
    ensures var more := entries[t := CacheEntry(c, false, c.IsPruned())];
            Overlay(m, more) == Overlay(m, entries) && EntriesOk(m, shared, more)
  {
  }

  /** A cache after taking over a dirty entry of its child. */
  function Absorb(entries: CacheMap, t: TxId, e: CacheEntry): CacheMap {
    if t !in entries then
      if e.coins.IsPruned() then entries else entries[t := CacheEntry(e.coins, true, true)]
    else if entries[t].isFresh && e.coins.IsPruned() then entries - {t}
    else entries[t := CacheEntry(e.coins, true, entries[t].isFresh)]
  }

  lemma AbsorbedFlags(m: UtxoMap, shared: set<TxId>, entries: CacheMap, t: TxId, e: CacheEntry)
    requires EntriesOk(m, shared, entries) && EntryOk(Overlay(m, entries), t in entries, t, e) && e.dirty
    ensures EntriesOk(m, shared, Absorb(entries, t, e))
  {
  }

  lemma AbsorbedOverlay(m: UtxoMap, entries: CacheMap, t: TxId, e: CacheEntry)
    requires if t in entries then entries[t].isFresh ==> t !in m else e.coins.IsPruned() ==> t !in m
    ensures Overlay(m, Absorb(entries, t, e)) == Put(Overlay(m, entries), t, e.coins)
  {
    hide Coins.IsPruned;
  }

  /** An entry with no counterpart can be taken over as fresh, and a fresh one can be dropped when spent. */
  lemma AbsorbWrites(m: UtxoMap, shared: set<TxId>, entries: CacheMap, t: TxId, e: CacheEntry)
    requires EntriesOk(m, shared, entries) && EntryOk(Overlay(m, entries), t in entries, t, e) && e.dirty
    ensures t !in entries && !e.coins.IsPruned() ==> e.isFresh
    ensures Overlay(m, Absorb(entries, t, e)) == Put(Overlay(m, entries), t, e.coins)
    ensures EntriesOk(m, shared, Absorb(entries, t, e))
  {
    hide Coins.IsPruned, Absorb, Put;
    AbsorbedFlags(m, shared, entries, t, e);
    AbsorbedOverlay(m, entries, t, e);
  }

  /** An entry may be marked as about to change; if it is new here, it must say what is below. */
  lemma MarkDirty(m: UtxoMap, shared: set<TxId>, entries: CacheMap, t: TxId, e: CacheEntry)
    requires EntriesOk(m, shared, entries) && e.dirty && Tidy(e.coins) && (!e.isFresh ==> t in shared)
    requires if t in entries then e == entries[t].(dirty := true)
             else Answers(m, t, true, e.coins) && (e.isFresh <==> e.coins.IsPruned())
    ensures Overlay(m, entries[t := e]) == Overlay(m, entries)
    ensures EntriesOk(m, shared, entries[t := e])
    ensures Answers(Overlay(m, entries), t, true, e.coins)
  {
  }

  /** Changing a dirty entry, and forgetting it if it is fresh and fully spent. */
  lemma Rewrite(m: UtxoMap, shared: set<TxId>, entries: CacheMap, t: TxId, c: Coins)
    requires EntriesOk(m, shared, entries) && t in entries && entries[t].dirty && Tidy(c)
    ensures var e := entries[t].(coins := c);
            var after := if e.isFresh && c.IsPruned() then entries[t := e] - {t} else entries[t := e];
            Overlay(m, after) == Put(Overlay(m, entries), t, c) && EntriesOk(m, shared, after)
  {
  }

  lemma CachedIsTidy(m: UtxoMap, shared: set<TxId>, entries: CacheMap, t: TxId)
    requires EntriesOk(m, shared, entries) && t in entries
    ensures Tidy(entries[t].coins) && (!entries[t].isFresh ==> t in shared)
  {
  }

  lemma NotFoundBelow(m: UtxoMap, entries: CacheMap, t: TxId, c: Coins)
    requires Answers(m, t, false, c) && t !in entries
    ensures t !in Overlay(m, entries)
  {
  }

  lemma MissingIsSpent(m: UtxoMap, t: TxId, found: bool, c: Coins)
    requires Answers(m, t, found, c)
    ensures found ==> Answers(m, t, true, c)
    ensures NO_COINS.IsPruned() && Tidy(NO_COINS) && (!found ==> Answers(m, t, true, NO_COINS))
  {
  }

  /** A rewritten entry that is not fresh was shared before. */
  lemma EntriesKept(m: UtxoMap, shared: set<TxId>, entries: CacheMap, t: TxId, e: CacheEntry)
    requires EntriesOk(m, shared, entries) && t in entries && e.isFresh == entries[t].isFresh
    ensures !e.isFresh ==> t in shared
    ensures forall x :: x in entries && !entries[x].isFresh ==> x in shared
  {
  }

  lemma UnspentPut(m: UtxoMap, t: TxId, c: Coins)
    ensures Unspent(if c.IsPruned() then m - {t} else m[t := c]) == Put(Unspent(m), t, c)
  {
  }

  lemma TrimmedIsTidy(c: Coins)
    ensures Tidy(CoinsSpec.Cleanup(c))
  {
    PrunedIffTrimmedAway(CoinsSpec.Cleanup(c));
    TrimKept(CoinsSpec.Cleanup(c).vout);
  }

  class CoinsDb {
    var coins: UtxoMap
    var best: Hash

    ghost function View(): UtxoMap
      reads this`coins
    {
      Unspent(coins)
    }

    ghost predicate Valid()
      reads this`coins
    {
      forall t :: t in coins ==> Tidy(coins[t])
    }

    /** A database with nothing in it. */
    constructor ()
      ensures Valid() && coins == map[] && best == 0
    {
      coins, best := map[], 0;
    }

    method GetCoins(t: TxId) returns (found: bool, c: Coins)
      requires Valid()
      ensures found ==> Tidy(c)
      ensures Answers(View(), t, found, c)
    {
      if t in coins {
        found, c := true, coins[t];
      } else {
        found, c := false, NO_COINS;
      }
    }

    method Write(t: TxId, e: CacheEntry)
      requires Valid() && Tidy(e.coins)
      modifies this`coins
      ensures Valid() && View() == Written(old(View()), t, e)
    {
      UnspentPut(coins, t, e.coins);
      if e.dirty {
        if e.coins.IsPruned() {
          coins := coins - {t};
        } else {
          coins := coins[t := e.coins];
        }
      }
    }

    method BatchWrite(mapCoins: CacheMap, hashBlock: Hash, ghost shared: set<TxId>)
      requires Valid() && EntriesOk(View(), shared, mapCoins)
      modifies this
      ensures Valid() && View() == Overlay(old(View()), mapCoins)
      ensures best == if hashBlock != 0 then hashBlock else old(best)
    {
      hide Overlay, EntriesOk, Written, Unspent, Valid;
      var rest := mapCoins;
      while rest != map[]
        invariant Valid() && EntriesOk(View(), shared, rest) && Overlay(View(), rest) == Overlay(old(View()), mapCoins)
        invariant best == old(best)
        decreases |rest|
      {
        var t :| t in rest;
        WriteOne(View(), shared, rest, t);
        Write(t, rest[t]);
        rest := rest - {t};
      }
      NothingOnTop(View());
      if hashBlock != 0 {
        best := hashBlock;
      }
    }
  }

  /** What lies below a cache. */
  datatype Backend = Disk(db: CoinsDb) | Layer(cache: CoinsViewCache)

  class CoinsViewCache {
    const base: Backend
    var hasModifier: bool
    var hashBlock: Hash
    var cacheCoins: CacheMap
    ghost const Repr: set<object>

    /** The objects of the stack below and including this cache, all different. */
    ghost predicate Linked()
      ensures Linked() ==> this in Repr
      decreases Repr
    {
      && this in Repr
      && match base
         case Disk(db) => Repr == {this, db}
         case Layer(c) => this !in c.Repr && Repr == {this} + c.Repr && c.Linked()
    }

    ghost function BaseView(): UtxoMap
      requires Linked()
      reads Repr
      decreases Repr, 0
    {
      match base
      case Disk(db) => db.View()
      case Layer(c) => c.View()
    }

    /** The unspent outputs seen through this cache. */
    ghost function View(): UtxoMap
      requires Linked()
      reads Repr
      decreases Repr, 1
    {
      Overlay(BaseView(), cacheCoins)
    }

    /** The transactions for which a parent cache has its own entry; over a database there is nothing to share. */
    ghost function Shared(): set<TxId>
      requires Linked()
      reads Repr
    {
      match base
      case Disk(_) => cacheCoins.Keys
      case Layer(c) => c.cacheCoins.Keys
    }

    /** Flags are truthful in every layer, and no layer below is being modified. */
    ghost predicate Valid()
      reads Repr
      decreases Repr
    {
      && Linked()
      && EntriesOk(BaseView(), Shared(), cacheCoins)
      && (match base case Disk(db) => db.Valid() case Layer(c) => c.Valid() && !c.hasModifier)
    }

    ghost function BestBlock(): Hash
      requires Linked()
      reads Repr
      decreases Repr, 1
    {
      if hashBlock != 0 then hashBlock else BestBelow()
    }

    /** The best block of what lies below this cache. */
    ghost function BestBelow(): Hash
      requires Linked()
      reads Repr
      decreases Repr, 0
    {
      match base
      case Disk(db) => db.best
      case Layer(c) => c.BestBlock()
    }

    constructor (b: Backend)
      requires match b case Disk(db) => db.Valid() case Layer(c) => c.Valid() && !c.hasModifier
      ensures Valid() && base == b && !hasModifier && hashBlock == 0 && cacheCoins == map[]
      ensures View() == match b case Disk(db) => db.View() case Layer(c) => c.View()
      ensures fresh(Repr - match b case Disk(db) => {db} case Layer(c) => c.Repr)
    {
      base := b;
      hasModifier, hashBlock, cacheCoins := false, 0, map[];
      ghost var below: set<object> := match b case Disk(db) => {db} case Layer(c) => c.Repr;
      Repr := {this} + below;
    }

    /** The answer of the layer below, which may fill its own cache on the way. */
    method BaseGetCoins(t: TxId) returns (found: bool, coins: Coins)
      requires Valid()
      modifies Repr - {this}
      ensures Valid() && BaseView() == old(BaseView()) && BestBlock() == old(BestBlock())
      ensures Answers(BaseView(), t, found, coins) && (found && base.Layer? ==> t in Shared())
              && (found ==> Tidy(coins))
      decreases Repr, 0
    {
      match base
      case Disk(db) => found, coins := db.GetCoins(t);
      case Layer(c) => found, coins := c.GetCoins(t);
    }

    /** The entry of `t` in this cache, pulled up through the layers below if there is one anywhere. */
    method FetchCoins(t: TxId) returns (found: bool)
      requires Valid()
      modifies Repr
      ensures Valid() && View() == old(View()) && BaseView() == old(BaseView()) && BestBlock() == old(BestBlock())
      ensures hasModifier == old(hasModifier) && hashBlock == old(hashBlock)
      ensures old(cacheCoins.Keys) <= cacheCoins.Keys && (found <==> t in cacheCoins)
      ensures !found ==> t !in View()
      decreases Repr, 1
    {
      hide EntriesOk, Overlay, Answers, Coins.IsPruned;
      if t in cacheCoins {
        return true;
      }
      var tmp;
      found, tmp := BaseGetCoins(t);
      if !found {
        NotFoundBelow(BaseView(), cacheCoins, t, tmp);
        return false;
      }
      ghost var shared := Shared() + {t};
      ShareMore(BaseView(), Shared(), shared, cacheCoins);
      AddClean(BaseView(), shared, cacheCoins, t, tmp);
      cacheCoins := cacheCoins[t := CacheEntry(tmp, false, tmp.IsPruned())];
      ShareMore(BaseView(), shared, Shared(), cacheCoins);
    }

    method GetCoins(t: TxId) returns (found: bool, coins: Coins)
      requires Valid()
      modifies Repr
      ensures Valid() && View() == old(View()) && BaseView() == old(BaseView()) && BestBlock() == old(BestBlock())
      ensures hasModifier == old(hasModifier) && hashBlock == old(hashBlock)
      ensures old(cacheCoins.Keys) <= cacheCoins.Keys && (found <==> t in cacheCoins)
      ensures Answers(View(), t, found, coins) && (found ==> Tidy(coins))
      decreases Repr, 2
    {
      coins := NO_COINS;
      found := FetchCoins(t);
      if found {
        coins := cacheCoins[t].coins;
      }
    }

    /** Looks at the outputs left, not at whether one of them is unspent; tidy entries make that the same. */
    method HaveCoins(t: TxId) returns (have: bool)
      requires Valid()
      modifies Repr
      ensures Valid() && View() == old(View()) && BaseView() == old(BaseView()) && BestBlock() == old(BestBlock())
      ensures hasModifier == old(hasModifier) && hashBlock == old(hashBlock)
      ensures have <==> t in View()
    {
      var found := FetchCoins(t);
      have := found && cacheCoins[t].coins.vout != [];
      assert found ==> EntryOk(BaseView(), t in Shared(), t, cacheCoins[t]);
    }

    method GetBestBlock() returns (h: Hash)
      requires Valid()
      modifies Repr
      ensures Valid() && View() == old(View()) && BaseView() == old(BaseView()) && cacheCoins == old(cacheCoins)
      ensures hasModifier == old(hasModifier)
      ensures h == hashBlock == old(BestBlock()) && BestBlock() == h && BestBelow() == old(BestBelow())
      decreases Repr
    {
      if hashBlock == 0 {
        match base
        case Disk(db) => hashBlock := db.best;
        case Layer(c) => h := c.GetBestBlock(); hashBlock := h;
      }
      h := hashBlock;
    }

    method SetBestBlock(h: Hash)
      requires Valid()
      modifies this`hashBlock
      ensures Valid() && View() == old(View()) && hashBlock == h && (h != 0 ==> BestBlock() == h)
    {
      hashBlock := h;
    }

    /** Takes over one entry of a child cache. */
    method Write(t: TxId, e: CacheEntry)
      requires Valid() && EntryOk(View(), t in cacheCoins, t, e)
      modifies this`cacheCoins
      ensures Valid() && View() == Written(old(View()), t, e)
      ensures old(cacheCoins.Keys) - {t} <= cacheCoins.Keys
    {
      if e.dirty {
        ghost var was, shared := cacheCoins, Shared();
        AbsorbWrites(BaseView(), shared, was, t, e);
        if t !in cacheCoins {
          if !e.coins.IsPruned() {
            assert e.isFresh;
            cacheCoins := cacheCoins[t := CacheEntry(e.coins, true, true)];
          }
        } else {
          if cacheCoins[t].isFresh && e.coins.IsPruned() {
            cacheCoins := cacheCoins - {t};
          } else {
            cacheCoins := cacheCoins[t := CacheEntry(e.coins, true, cacheCoins[t].isFresh)];
          }
        }
        assert cacheCoins == Absorb(was, t, e);
        hide Absorb, EntriesOk, Overlay;
        ShareMore(BaseView(), shared, Shared(), cacheCoins);
      }
    }

    /** Takes over one of several entries of a child cache. */
    method WriteAmong(rest: CacheMap, t: TxId)
      requires Valid() && t in rest && EntriesOk(View(), cacheCoins.Keys, rest)
      modifies this`cacheCoins
      ensures Valid() && EntriesOk(View(), cacheCoins.Keys, rest - {t})
              && Overlay(View(), rest - {t}) == Overlay(old(View()), rest)
    {
      hide Overlay, EntriesOk, EntryOk, Written, Put;
      ghost var m, keys := Written(View(), t, rest[t]), cacheCoins.Keys;
      WriteOne(View(), keys, rest, t);
      Write(t, rest[t]);
      ShareMore(m, keys, cacheCoins.Keys, rest - {t});
    }

    method BatchWrite(mapCoins: CacheMap, hashBlockIn: Hash) returns (ok: bool)
      requires Valid() && !hasModifier && EntriesOk(View(), cacheCoins.Keys, mapCoins)
      modifies this`cacheCoins, this`hashBlock
      ensures ok && Valid() && View() == Overlay(old(View()), mapCoins) && hashBlock == hashBlockIn
      ensures BestBelow() == old(BestBelow())
    {
      hide Overlay, EntriesOk, EntryOk, Put;
      var rest := mapCoins;
      while rest != map[]
        invariant Valid() && EntriesOk(View(), cacheCoins.Keys, rest)
                  && Overlay(View(), rest) == Overlay(old(View()), mapCoins)
        decreases rest.Keys
      {
        var t :| t in rest;
        WriteAmong(rest, t);
        rest := rest - {t};
      }
      NothingOnTop(View());
      hashBlock := hashBlockIn;
      ok := true;
    }

    /** Whether a flush leaves the best block alone.  A null hash overwrites what the parent cache had set. */
    ghost predicate FlushKeepsBestBlock()
      requires Linked()
      reads Repr
    {
      hashBlock != 0 || base.Disk? || base.cache.hashBlock == 0 || base.cache.hashBlock == base.cache.BestBelow()
    }

    /** Writes everything down one layer.  The map seen from here does not change; it becomes the parent's own. */
    method Flush() returns (ok: bool)
      requires Valid() && !hasModifier
      modifies Repr
      ensures ok && Valid() && !hasModifier && cacheCoins == map[] && hashBlock == old(hashBlock)
      ensures View() == old(View()) && BaseView() == old(View())
      ensures BestBlock() == old(BestBlock()) <==> old(FlushKeepsBestBlock())
      ensures BestBlock() == old(if hashBlock != 0 || base.Disk? then BestBlock() else base.cache.BestBelow())
    {
      hide EntriesOk, Overlay, Put;
      ghost var best := if hashBlock != 0 || base.Disk? then BestBlock() else base.cache.BestBelow();
      assert base.Layer? ==>
        base.cache.BestBlock() == if base.cache.hashBlock != 0 then base.cache.hashBlock else base.cache.BestBelow();
      assert FlushKeepsBestBlock() <==> best == BestBlock();
      match base {
        case Disk(db) =>
          db.BatchWrite(cacheCoins, hashBlock, Shared());
          ok := true;
        case Layer(c) =>
          ok := c.BatchWrite(cacheCoins, hashBlock);
      }
      label Written:
      cacheCoins := map[];
      NothingOnTop(BaseView());
      assert base.Layer? ==> base.cache.BestBlock() == old@Written(base.cache.BestBlock());
      assert BestBelow() == old@Written(BestBelow());
      assert BestBlock() == best;
    }

    /** Hands out the entry of `t` for modification; a missing one starts out blank. */
    method ModifyCoins(t: TxId) returns (m: CoinsModifier)
      requires Valid() && !hasModifier
      modifies Repr
      ensures Valid() && View() == old(View()) && BaseView() == old(BaseView()) && BestBlock() == old(BestBlock())
      ensures hasModifier && hashBlock == old(hashBlock)
      ensures fresh(m) && m.cache == this && m.txid == t && m.Live()
      ensures Answers(View(), t, true, m.coins) && Tidy(m.coins)
    {
      hide EntriesOk, Overlay, Answers;
      var entry := EntryToModify(t);
      ghost var shared := if base.Disk? then Shared() + {t} else Shared();
      ShareMore(BaseView(), Shared(), shared, cacheCoins);
      MarkDirty(BaseView(), shared, cacheCoins, t, entry);
      cacheCoins := cacheCoins[t := entry];
      ShareMore(BaseView(), shared, Shared(), cacheCoins);
      m := new CoinsModifier(this, t, entry.coins);
      hasModifier := true;
    }

    /** The entry of `t` marked as about to change, from here or from below. */
    method EntryToModify(t: TxId) returns (entry: CacheEntry)
      requires Valid()
      modifies Repr
      ensures Valid() && View() == old(View()) && BaseView() == old(BaseView()) && BestBlock() == old(BestBlock())
      ensures cacheCoins == old(cacheCoins) && hasModifier == old(hasModifier) && hashBlock == old(hashBlock)
      ensures entry.dirty && Tidy(entry.coins) && (!entry.isFresh ==> t in Shared() || base.Disk?)
      ensures if t in cacheCoins then entry == cacheCoins[t].(dirty := true)
              else Answers(BaseView(), t, true, entry.coins) && (entry.isFresh <==> entry.coins.IsPruned())
    {
      hide EntriesOk, Overlay, Answers, Coins.IsPruned;
      if t in cacheCoins {
        CachedIsTidy(BaseView(), Shared(), cacheCoins, t);
        entry := cacheCoins[t].(dirty := true);
      } else {
        var found, coins := BaseGetCoins(t);
        MissingIsSpent(BaseView(), t, found, coins);
        if !found {
          coins := NO_COINS;
        }
        entry := CacheEntry(coins, true, !found || coins.IsPruned());
      }
    }
  }

  /** A case in which the best block is forgotten: a cache knows it, but not the database below nor a new cache above,
      which has never been asked for it and is flushed. */
  method FlushForgetsBestBlock() returns (before: Hash, after: Hash)
    ensures before == 5 && after == 0
  {
    hide EntriesOk, Overlay, Unspent;
    var db := new CoinsDb();
    var parent := new CoinsViewCache(Disk(db));
    parent.SetBestBlock(5);
    before := parent.GetBestBlock();
    var child := new CoinsViewCache(Layer(parent));
    assert parent.BestBelow() == 0;
    var ok := child.Flush();
    assert child.BestBlock() == child.BestBelow() == parent.BestBlock();
    after := parent.GetBestBlock();
  }

  /** The modifiable copy of one entry of a cache, to be put back by `Release`. */
  class CoinsModifier {
    const cache: CoinsViewCache
    const txid: TxId
    var coins: Coins

    constructor (c: CoinsViewCache, t: TxId, v: Coins)
      ensures cache == c && txid == t && coins == v
    {
      cache, txid, coins := c, t, v;
    }

    ghost predicate Live()
      reads this, cache, cache.Repr
    {
      this !in cache.Repr && cache.Valid() && cache.hasModifier && txid in cache.cacheCoins
        && cache.cacheCoins[txid].dirty
    }

    /** Drops the spent outputs at the end. */
    method Cleanup()
      modifies this`coins
      ensures coins == CoinsSpec.Cleanup(old(coins))
    {
      while |coins.vout| > 0 && coins.vout[|coins.vout| - 1].IsNull()
        invariant CoinsSpec.Cleanup(coins) == CoinsSpec.Cleanup(old(coins))
        decreases |coins.vout|
      {
        coins := coins.(vout := coins.vout[..|coins.vout| - 1]);
      }
    }

    method ClearUnspendable()
      modifies this`coins
      ensures coins == CoinsSpec.ClearUnspendable(old(coins))
    {
      ghost var was := coins;
      for i := 0 to |coins.vout|
        invariant |coins.vout| == |was.vout| && coins == was.(vout := coins.vout)
        invariant forall k :: 0 <= k < |was.vout| ==>
                    coins.vout[k] == if k < i && was.vout[k].IsUnspendable() then NULL_OUT else was.vout[k]
      {
        if coins.vout[i].IsUnspendable() {
          coins := coins.(vout := coins.vout[i := NULL_OUT]);
        }
      }
      assert coins.vout == Spendable(was.vout);
      Cleanup();
    }

    method FromTx(tx: Tx, height: int)
      modifies this`coins
      ensures coins == CoinsSpec.FromTx(tx, height)
    {
      coins := Coins(tx.IsCoinBase(), tx.IsCoinStake(), tx.vout, height, tx.version);
      ClearUnspendable();
    }

    /** Spends one output, recording the metadata as well if it is the last one. */
    method Spend(out: OutPoint) returns (ret: bool, undo: TxInUndo)
      modifies this`coins
      ensures ret <==> old(coins).IsAvailable(out.n)
      ensures if ret then (coins, undo) == CoinsSpec.Spend(old(coins), out.n) else coins == old(coins)
    {
      undo := TxInUndo(NULL_OUT, false, false, 0, 0);
      if out.n >= |coins.vout| {
        return false, undo;
      }
      if coins.vout[out.n].IsNull() {
        return false, undo;
      }
      undo := undo.(txout := coins.vout[out.n]);
      coins := coins.(vout := coins.vout[out.n := NULL_OUT]);
      Cleanup();
      if |coins.vout| == 0 {
        undo := undo.(height := coins.height, coinBase := coins.coinBase, coinStake := coins.coinStake,
                      version := coins.version);
      }
      ret := true;
    }

    /** Ends the modification: drops spent outputs at the end, and the whole entry if the parent need not know. */
    method Release()
      requires Live()
      modifies cache
      ensures cache.Valid() && !cache.hasModifier && cache.hashBlock == old(cache.hashBlock)
      ensures cache.View() == Put(old(cache.View()), txid, CoinsSpec.Cleanup(coins))
      ensures cache.BaseView() == old(cache.BaseView()) && cache.BestBlock() == old(cache.BestBlock())
    {
      hide CoinsSpec.Cleanup, EntriesOk, Overlay, Put;
      TrimmedIsTidy(coins);
      cache.hasModifier := false;
      var entry := cache.cacheCoins[txid].(coins := CoinsSpec.Cleanup(coins));
      ghost var was, shared := cache.cacheCoins, cache.Shared();
      Rewrite(cache.BaseView(), shared, was, txid, CoinsSpec.Cleanup(coins));
      cache.cacheCoins := cache.cacheCoins[txid := entry];
      if entry.isFresh && entry.coins.IsPruned() {
        cache.cacheCoins := cache.cacheCoins - {txid};
      }
      EntriesKept(cache.BaseView(), shared, was, txid, entry);
      ShareMore(cache.BaseView(), shared, cache.Shared(), cache.cacheCoins);
    }
  }
}
