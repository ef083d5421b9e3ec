/**
 The caches as the objects they are: each holds its entries and a pointer to the view it
 is backed by. Every method is proved to do to the stack below it what `CoinsCache` says.
 `Contents` is the value of a cache together with everything below it, and `Caches` are the
 objects of the stack; a method changes entries of these only. What the operations keep over
 whole runs, and that the stack cannot be told from a plain map, are lemmas of `CoinsCache`.
 */
module CoinsViewCache {
  import opened Coins
  import opened CoinsCache
  import opened Common

  class CCoinsViewDB {
    var coins: map<Txid, CCoins>
    var best: uint256

    constructor (coins: map<Txid, CCoins>, best: uint256)
      ensures this.coins == coins && this.best == best
    {
      this.coins, this.best := coins, best;
    }

    method BatchWrite(mapCoins: CoinsMap, hashBlock: uint256)
      modifies this
      ensures Db(coins, best) == CoinsCache.BatchWrite(Db(old(coins), old(best)), mapCoins, hashBlock)
    {
      ghost var before := coins;
      var rest := mapCoins;
      while rest != map[]
        invariant forall k :: k in rest ==> k in mapCoins && rest[k] == mapCoins[k]
        invariant best == old(best)
        invariant forall k :: Get(coins, k) == if k in rest then Get(before, k) else Written(before, mapCoins, k)
        decreases rest
      {
        var txid :| txid in rest;
        if rest[txid].isDirty {
          coins := if rest[txid].coins.IsPruned() then coins - {txid} else coins[txid := rest[txid].coins];
        }
        rest := rest - {txid};
      }
      if hashBlock != 0 {
        best := hashBlock;
      }
      assert forall k :: Get(WriteAll(before, mapCoins), k) == Written(before, mapCoins, k);
      SameGetSameMap(coins, WriteAll(before, mapCoins));
    }
  }

  class CCoinsViewCache {
    const db: CCoinsViewDB
    const base: CCoinsViewCache?
    ghost const depth: nat
    var hasModifier: bool
    var hashBlock: uint256
    var cacheCoins: CoinsMap

    /** The backing chain is finite and ends in one database. */
    ghost predicate Valid()
      decreases depth
    {
      base != null ==> base.depth < depth && base.db == db && base.Valid() && this !in base.Caches()
    }

    ghost function Caches(): set<CCoinsViewCache>
      decreases depth
    {
      {this} + if base != null && base.depth < depth then base.Caches() else {}
    }

    /** The stack from this cache down to the database. */
    ghost function Contents(): View
      requires Valid()
      reads Caches(), db
      decreases depth
    {
      Cache(cacheCoins, hashBlock, if base == null then Db(db.coins, db.best) else base.Contents())
    }

    constructor OverDatabase(db: CCoinsViewDB)
      ensures Valid() && this.db == db && base == null && !hasModifier && Caches() == {this}
      ensures Contents() == Cache(map[], 0, Db(db.coins, db.best))
    {
      this.db, this.base, this.depth := db, null, 0;
      hasModifier, hashBlock, cacheCoins := false, 0, map[];
    }

    constructor OverCache(base: CCoinsViewCache)
      requires base.Valid()
      ensures Valid() && this.base == base && this.db == base.db && !hasModifier && Caches() == {this} + base.Caches()
      ensures Contents() == Cache(map[], 0, base.Contents())
    {
      this.db, this.base, this.depth := base.db, base, base.depth + 1;
      hasModifier, hashBlock, cacheCoins := false, 0, map[];
      new;
      if this in base.Caches() {
        base.CachesAreShallower(this);
      }
    }

    lemma {:induction false} CachesAreShallower(c: CCoinsViewCache)
      requires Valid() && c in Caches()
      ensures c.depth <= depth
      decreases depth
    {
      if c != this {
        base.CachesAreShallower(c);
      }
    }

    method FetchCoins(txid: Txid) returns (found: Option<CCoins>)
      requires Valid()
      modifies Caches()`cacheCoins
      ensures Fetched(found, Contents()) == Fetch(old(Contents()), txid)
      decreases depth
    {
      if txid in cacheCoins {
        return Some(cacheCoins[txid].coins);
      }
      found := BaseGetCoins(txid);
      match found
      case None =>
      case Some(c) => cacheCoins := cacheCoins[txid := Entry(c, false, c.IsPruned())];
    }

    /** The virtual call `base->GetCoins`. */
    method BaseGetCoins(txid: Txid) returns (found: Option<CCoins>)
      requires Valid()
      modifies (Caches() - {this})`cacheCoins
      ensures Fetched(found, Contents().base) == Fetch(old(Contents()).base, txid)
      ensures cacheCoins == old(cacheCoins) && hashBlock == old(hashBlock)
      decreases depth, 0
    {
      if base == null {
        found := if txid in db.coins then Some(db.coins[txid]) else None;
      } else {
        found := base.FetchCoins(txid);
      }
    }

    method HaveCoins(txid: Txid) returns (have: bool)
      requires Valid()
      modifies Caches()`cacheCoins
      ensures Contents() == Fetch(old(Contents()), txid).view
      ensures have == Have(Fetch(old(Contents()), txid).coins)
    {
      var found := FetchCoins(txid);
      have := found.Some? && found.value.vout != [];
    }

    method ModifyCoins(txid: Txid) returns (coins: CCoins)
      requires Valid() && !hasModifier
      modifies Caches()`cacheCoins, this`hasModifier
      ensures hasModifier && Contents() == BeginModify(old(Contents()), txid)
      ensures coins == Contents().entries[txid].coins
    {
      if txid !in cacheCoins {
        var found := BaseGetCoins(txid);
        match found {
          case None => cacheCoins := cacheCoins[txid := Entry(CLEARED, false, true)];
          case Some(c) => cacheCoins := cacheCoins[txid := Entry(c, false, c.IsPruned())];
        }
      }
      cacheCoins := cacheCoins[txid := cacheCoins[txid].(isDirty := true)];
      hasModifier := true;
      coins := cacheCoins[txid].coins;
    }

    /** The destructor of `CCoinsModifier`, run on what the caller made of the coins. */
    method ReleaseModifier(txid: Txid, coins: CCoins)
      requires Valid() && hasModifier && txid in cacheCoins
      modifies this`cacheCoins, this`hasModifier
      ensures !hasModifier && Contents() == EndModify(old(Contents()), txid, coins)
    {
      hasModifier := false;
      cacheCoins := cacheCoins[txid := cacheCoins[txid].(coins := coins.Cleanup())];
      if cacheCoins[txid].isFresh && cacheCoins[txid].coins.IsPruned() {
        cacheCoins := cacheCoins - {txid};
      }
    }

    method BatchWrite(mapCoins: CoinsMap, hashBlockIn: uint256)
      requires Valid() && !hasModifier
      requires BatchAssertions(Contents(), mapCoins)
      modifies this`cacheCoins, this`hashBlock
      ensures Contents() == CoinsCache.BatchWrite(old(Contents()), mapCoins, hashBlockIn)
    {
      hide MergedSoFar, MergeAll;
      ghost var before := cacheCoins;
      var rest := mapCoins;
      NothingMerged(before, mapCoins);
      while rest != map[]
        invariant Contents().base == old(Contents()).base
        invariant MergedSoFar(before, mapCoins, rest, cacheCoins)
        decreases rest
      {
        var txid :| txid in rest;
        ghost var now := cacheCoins;
        NextToMerge(before, mapCoins, rest, now, txid);
        if rest[txid].isDirty {
          var theirs := rest[txid];
          if txid !in cacheCoins {
            if !theirs.coins.IsPruned() {
              assert theirs.isFresh;
              cacheCoins := cacheCoins[txid := Entry(theirs.coins, true, true)];
            }
          } else if cacheCoins[txid].isFresh && theirs.coins.IsPruned() {
            cacheCoins := cacheCoins - {txid};
          } else {
            cacheCoins := cacheCoins[txid := cacheCoins[txid].(coins := theirs.coins, isDirty := true)];
          }
        }
        OneMoreMerged(before, mapCoins, rest, now, txid, cacheCoins);
        rest := rest - {txid};
      }
      hashBlock := hashBlockIn;
      AllMerged(before, mapCoins, cacheCoins);
    }

    /** The entries that are not in `rest` any more have been merged. */
    static ghost predicate MergedSoFar(before: CoinsMap, mapCoins: CoinsMap, rest: CoinsMap, now: CoinsMap) {
      && (forall k :: k in rest ==> k in mapCoins && rest[k] == mapCoins[k])
      && (forall k :: Get(now, k) == if k in rest then Get(before, k) else Merged(before, mapCoins, k))
    }

    static lemma {:induction false} NothingMerged(before: CoinsMap, mapCoins: CoinsMap)
      ensures MergedSoFar(before, mapCoins, mapCoins, before)
    {
    }

    static lemma {:induction false} NextToMerge(before: CoinsMap, mapCoins: CoinsMap, rest: CoinsMap, now: CoinsMap,
            txid: Txid)
      requires MergedSoFar(before, mapCoins, rest, now) && txid in rest
      ensures txid in mapCoins && rest[txid] == mapCoins[txid] && Get(now, txid) == Get(before, txid)
      ensures txid in now <==> txid in before
    {
    }

    static lemma {:induction false} OneMoreMerged(before: CoinsMap, mapCoins: CoinsMap, rest: CoinsMap, now: CoinsMap,
            txid: Txid, now': CoinsMap)
      requires MergedSoFar(before, mapCoins, rest, now) && txid in rest
      requires Get(now', txid) == Merged(before, mapCoins, txid)
      requires now' - {txid} == now - {txid}
      ensures MergedSoFar(before, mapCoins, rest - {txid}, now')
    {
      forall k | k != txid ensures Get(now', k) == Get(now, k) {
        assert Get(now' - {txid}, k) == Get(now - {txid}, k);
      }
    }

    static lemma {:induction false} AllMerged(before: CoinsMap, mapCoins: CoinsMap, now: CoinsMap)
      requires MergedSoFar(before, mapCoins, map[], now)
      ensures now == MergeAll(before, mapCoins)
    {
      assert forall k :: Get(MergeAll(before, mapCoins), k) == Merged(before, mapCoins, k);
      SameGetSameMap(now, MergeAll(before, mapCoins));
    }

    /** Where the assertion holds; if every entry finds its place, the base takes over what the cache stood for. */
    method Flush()
      requires Valid() && !hasModifier && (base != null ==> !base.hasModifier)
      requires BatchAssertions(Contents().base, cacheCoins)
      modifies this`cacheCoins, db
      modifies if base == null then {} else {base}
      ensures Contents() == CoinsCache.Flush(old(Contents()))
      ensures old(Inv(Contents()) && HandsOver(Contents())) ==>
        Inv(Contents()) && AsMap(Contents().base) == old(AsMap(Contents()))
    {
      hide Inv, HandsOver, AsMap, BatchAssertions, CoinsCache.BatchWrite;
      if Inv(Contents()) && HandsOver(Contents()) {
        FlushMovesViewDown(Contents());
      }
      if base == null {
        db.BatchWrite(cacheCoins, hashBlock);
      } else {
        base.BatchWrite(cacheCoins, hashBlock);
      }
      cacheCoins := map[];
    }

    static lemma {:induction false} SameMapAbove(v: View, base: View, hashBlock: uint256)
      requires v.Cache? && AsMap(base) == AsMap(v.base)
      ensures AsMap(Cache(v.entries, hashBlock, base)) == AsMap(v)
    {
      hide AsMap;
      var r := Cache(v.entries, hashBlock, base);
      forall k ensures Lookup(r, k) == Lookup(v, k) {
        AsMapIsLookup(base, k);
        AsMapIsLookup(v.base, k);
      }
      SameLookupSameMap(r, v);
    }

    method GetBestBlock() returns (best: uint256)
      requires Valid()
      modifies Caches()`hashBlock
      ensures best == BestBlock(old(Contents())) == BestBlock(Contents())
      ensures AsMap(Contents()) == old(AsMap(Contents()))
      decreases depth
    {
      hide AsMap, Lookup;
      ghost var v := Contents();
      if hashBlock == 0 {
        if base == null {
          hashBlock := db.best;
        } else {
          hashBlock := base.GetBestBlock();
        }
      }
      best := hashBlock;
      SameMapAbove(v, Contents().base, hashBlock);
    }
  }
}
