/** The coin database and the write-back caches stacked on it (src/coins.cpp, src/txdb.cpp). */
module CoinsView {
  import opened Transactions
  import opened Coins
  import opened CoinMap

  /** The bottom of every stack. */
  class CoinsViewDB {
    var store: map<Hash, Coins>
    var best: Hash

    ghost predicate Valid()
      reads this
    {
      forall t :: t in store ==> store[t].IsTrimmed()
    }

    ghost function View(): (m: CoinMap)
      reads this
      ensures Valid() ==> WellFormed(m)
    {
      Unspent(store)
    }

    constructor ()
      ensures Valid() && View() == map[] && best == 0
    {
      store, best := map[], 0;
    }

    method GetCoins(t: Hash) returns (found: bool, coins: Coins)
      requires Valid()
      ensures found <==> t in store
      ensures found ==> coins == store[t] && coins.Same(At(View(), t))
      ensures !found ==> At(View(), t) == EMPTY
    {
      if t in store {
        found, coins := true, store[t];
      } else {
        found, coins := false, EMPTY;
      }
    }

    method WriteCoins(t: Hash, coins: Coins)
      requires Valid() && coins.IsTrimmed()
      modifies this`store
      ensures Valid() && View() == Put(old(View()), t, coins)
    {
      if coins.IsPruned() {
        UnspentErase(store, t, coins);
        store := store - {t};
      } else {
        UnspentStore(store, t, coins);
        store := store[t := coins];
      }
    }

    /** One turn of BatchWrite: m is the view at the start, done the entries already seen. */
    method WriteEntry(ghost m: CoinMap, ghost done: Cache, t: Hash, e: CacheEntry)
      requires Valid() && View() == Overlay(m, done) && t !in done && EntryOk(e, At(m, t))
      modifies this`store
      ensures Valid() && View() == Overlay(m, done[t := e])
    {
      OverlayStore(m, done, t, e);
      if e.isDirty {
        WriteCoins(t, e.coins);
      } else {
        assert At(View(), t).Same(At(m, t));
        PutSame(View(), t, e.coins);
      }
    }

    /** Writes the dirty entries, erasing pruned ones; a null hash leaves the best block alone. */
    method BatchWrite(entries: Cache, hashBlock: Hash)
      requires Valid() && LayerOk(View(), entries)
      modifies this
      ensures Valid()
      ensures View() == Overlay(old(View()), entries)
      ensures best == if hashBlock != 0 then hashBlock else old(best)
    {
      ghost var m := View();
      var rest := entries.Keys;
      MinusAll(m, entries);
      while |rest| > 0
        invariant rest <= entries.Keys
        invariant Valid() && best == old(best) && View() == Overlay(m, entries - rest)
      {
        var t := Pick(rest);
        MinusOne(entries, rest, t);
        WriteEntry(m, entries - rest, t, entries[t]);
        rest := rest - {t};
      }
      if hashBlock != 0 {
        best := hashBlock;
      }
    }
  }

  datatype Backing = OnDB(db: CoinsViewDB) | OnCache(cache: CoinsViewCache) {
    ghost function Repr(): set<object> {
      match this
      case OnDB(db) => {db}
      case OnCache(c) => c.Repr
    }
  }

  /** What each view of a stack shows, the newest first. */
  datatype Levels =
    | Bottom(view: CoinMap, best: Hash)
    | Layer(view: CoinMap, best: Hash, under: Levels)

  /** What the views below show once a cache showing view, with its own best block hash, is flushed.
      A null hash is not written to the database, but it does overwrite the hash of a cache. */
  function Flushed(below: Levels, view: CoinMap, hash: Hash): Levels {
    match below
    case Bottom(_, best) => Bottom(view, if hash != 0 then hash else best)
    case Layer(_, _, under) => Layer(view, if hash != 0 then hash else under.best, under)
  }

  /** A cache over the database or over another cache. The view below stays unchanged,
      except for what it caches, while this cache is in use. */
  class CoinsViewCache {
    const base: Backing
    var cacheCoins: Cache
    var hashBlock: Hash
    var modifier: Option<Hash>
    ghost const Repr: set<object>

    ghost predicate Shape()
      ensures Shape() ==> this in Repr
      decreases Repr
    {
      && this in Repr
      && match base
         case OnDB(db) => Repr == {this, db}
         case OnCache(c) => this !in c.Repr && Repr == {this} + c.Repr && c.Shape()
    }

    /** What every view below shows. */
    ghost function LevelsBelow(): Levels
      requires Shape()
      reads Repr - {this}
      decreases Repr, 0
    {
      match base
      case OnDB(db) => Bottom(db.View(), db.best)
      case OnCache(c) => c.AllLevels()
    }

    ghost function AllLevels(): Levels
      requires Shape()
      reads Repr
      decreases Repr, 1
    {
      var below := LevelsBelow();
      Layer(Overlay(below.view, cacheCoins), if hashBlock != 0 then hashBlock else below.best, below)
    }

    ghost function Below(): CoinMap
      requires Shape()
      reads Repr - {this}
    {
      LevelsBelow().view
    }

    ghost function View(): CoinMap
      requires Shape()
      reads Repr
    {
      Overlay(Below(), cacheCoins)
    }

    ghost function BestBelow(): Hash
      requires Shape()
      reads Repr - {this}
    {
      LevelsBelow().best
    }

    ghost function Best(): Hash
      requires Shape()
      reads Repr
    {
      if hashBlock != 0 then hashBlock else BestBelow()
    }

    ghost predicate BaseValid()
      requires Shape()
      reads Repr - {this}
      decreases Repr, 0
    {
      match base
      case OnDB(db) => db.Valid()
      case OnCache(c) => c.Valid() && c.modifier == None
    }

    /** The keys held one level down; nothing depends on them over the database. */
    ghost predicate HeldBelow(t: Hash)
      requires Shape()
      reads Repr - {this}
    {
      base.OnCache? ==> t in base.cache.cacheCoins
    }

    ghost predicate Valid()
      reads this, Repr
      decreases Repr, 1
    {
      && Shape()
      && BaseValid()
      && LayerOk(Below(), cacheCoins)
      && (forall t :: t in cacheCoins && !cacheCoins[t].isFresh ==> HeldBelow(t))
      && (modifier.Some? ==> modifier.value in cacheCoins && cacheCoins[modifier.value].isDirty)
    }

    constructor (baseIn: Backing)
      requires match baseIn case OnDB(db) => db.Valid() case OnCache(c) => c.Valid() && c.modifier == None
      ensures Valid() && base == baseIn && modifier == None && hashBlock == 0
      ensures View() == Below() && Best() == BestBelow()
      ensures fresh(Repr - baseIn.Repr())
    {
      base, cacheCoins, hashBlock, modifier := baseIn, map[], 0, None;
      Repr := {this} + baseIn.Repr();
      new;
      ViewWellFormedBelow();
      OverlayEmpty(Below());
    }

    lemma ViewWellFormedBelow()
      requires Shape() && BaseValid()
      ensures WellFormed(Below())
    {
      if base.OnCache? {
        assert Below() == base.cache.AllLevels().view;
        OverlayWellFormed(base.cache.Below(), base.cache.cacheCoins);
      }
    }

    lemma ViewWellFormed()
      requires Valid()
      ensures WellFormed(View())
    {
      OverlayWellFormed(Below(), cacheCoins);
    }

    /** Asks the view below, which may cache the answer. */
    method BaseGetCoins(t: Hash) returns (found: bool, coins: Coins)
      requires Valid()
      modifies Repr - {this}
      ensures Valid()
      ensures LevelsBelow() == old(LevelsBelow())
      ensures found ==> coins.IsTrimmed() && coins.Same(At(Below(), t))
      ensures !found ==> t !in Below()
      ensures found ==> HeldBelow(t)
      ensures forall u :: old(HeldBelow(u)) ==> HeldBelow(u)
      decreases Repr, 0
    {
      match base {
        case OnDB(db) => found, coins := db.GetCoins(t);
        case OnCache(c) => found, coins := c.GetCoins(t);
      }
    }

    /** Sets one entry whose flags tell the truth about the view below. */
    method StoreEntry(t: Hash, e: CacheEntry)
      requires Valid() && modifier != Some(t)
      requires EntryOk(e, At(Below(), t)) && (!e.isFresh ==> HeldBelow(t))
      modifies this
      ensures hashBlock == old(hashBlock) && modifier == old(modifier)
      ensures Valid() && LevelsBelow() == old(LevelsBelow())
      ensures cacheCoins == old(cacheCoins)[t := e]
      ensures View() == Put(old(View()), t, e.coins)
    {
      OverlayStore(Below(), cacheCoins, t, e);
      LayerStore(Below(), cacheCoins, t, e);
      ghost var was := cacheCoins;
      cacheCoins := cacheCoins[t := e];
      assert BaseValid() && Below() == old(Below());
      assert LayerOk(Below(), cacheCoins);
    }

    /** Looks up an entry, pulling it in from below; found says whether there is one. */
    method FetchCoins(t: Hash) returns (found: bool)
      requires Valid()
      modifies Repr
      ensures Valid() && modifier == old(modifier) && hashBlock == old(hashBlock)
      ensures AllLevels() == old(AllLevels())
      ensures old(cacheCoins.Keys) <= cacheCoins.Keys
      ensures found <==> t in cacheCoins
      ensures !found ==> t !in View()
      decreases Repr, 1
    {
      if t in cacheCoins {
        return true;
      }
      var inBase, tmp := BaseGetCoins(t);
      if !inBase {
        return false;
      }
      ViewWellFormed();
      PutSame(View(), t, tmp);
      StoreEntry(t, CacheEntry(tmp, false, tmp.IsPruned()));
      return true;
    }

    method GetCoins(t: Hash) returns (found: bool, coins: Coins)
      requires Valid()
      modifies Repr
      ensures Valid() && modifier == old(modifier) && hashBlock == old(hashBlock)
      ensures AllLevels() == old(AllLevels())
      ensures old(cacheCoins.Keys) <= cacheCoins.Keys
      ensures found ==> coins.IsTrimmed() && coins.Same(At(View(), t)) && t in cacheCoins
      ensures !found ==> t !in View()
      decreases Repr, 2
    {
      found := FetchCoins(t);
      coins := if found then cacheCoins[t].coins else EMPTY;
    }

    /** True exactly for transactions with an unspent output, though only emptiness is looked at. */
    method HaveCoins(t: Hash) returns (have: bool)
      requires Valid()
      modifies Repr
      ensures Valid() && modifier == old(modifier) && hashBlock == old(hashBlock)
      ensures AllLevels() == old(AllLevels())
      ensures have <==> t in View()
    {
      var found := FetchCoins(t);
      have := found && cacheCoins[t].coins.vout != [];
    }

    method GetBestBlock() returns (hash: Hash)
      requires Valid()
      modifies Repr
      ensures Valid() && modifier == old(modifier) && cacheCoins == old(cacheCoins)
      ensures AllLevels() == old(AllLevels()) && hash == Best()
      decreases Repr
    {
      if hashBlock == 0 {
        match base {
          case OnDB(db) => hashBlock := db.best;
          case OnCache(c) => hash := c.GetBestBlock(); hashBlock := hash;
        }
      }
      hash := hashBlock;
    }

    method SetBestBlock(hash: Hash)
      requires Valid()
      modifies this`hashBlock
      ensures Valid() && hashBlock == hash && View() == old(View()) && LevelsBelow() == old(LevelsBelow())
    {
      hashBlock := hash;
    }

    /** Opens the entry for t for modification; the view does not change until Release. */
    method ModifyCoins(t: Hash) returns (coins: Coins)
      requires Valid() && modifier == None
      modifies Repr
      ensures Valid() && modifier == Some(t) && hashBlock == old(hashBlock)
      ensures AllLevels() == old(AllLevels())
      ensures coins.IsTrimmed() && coins.Same(At(View(), t))
      ensures t in cacheCoins && coins == cacheCoins[t].coins
    {
      coins := MarkDirty(t);
      modifier := Some(t);
    }

    method MarkDirty(t: Hash) returns (coins: Coins)
      requires Valid() && modifier == None
      modifies Repr
      ensures Valid() && modifier == None && hashBlock == old(hashBlock)
      ensures View() == old(View()) && LevelsBelow() == old(LevelsBelow())
      ensures coins.IsTrimmed() && coins.Same(At(View(), t))
      ensures t in cacheCoins && cacheCoins[t].isDirty && cacheCoins[t].coins == coins
    {
      ghost var view := View();
      ViewWellFormed();
      var isFresh;
      if t in cacheCoins {
        coins, isFresh := cacheCoins[t].coins, cacheCoins[t].isFresh;
      } else {
        var found;
        found, coins := BaseGetCoins(t);
        if !found {
          coins := EMPTY;
        }
        isFresh := !found || coins.IsPruned();
      }
      PutSame(view, t, coins);
      StoreEntry(t, CacheEntry(coins, true, isFresh));
    }

    /** Ends the modification begun by ModifyCoins, the caller having changed the coins to c. */
    method Release(c: Coins)
      requires Valid() && modifier.Some?
      modifies this
      ensures hashBlock == old(hashBlock)
      ensures Valid() && modifier == None && LevelsBelow() == old(LevelsBelow())
      ensures View() == Put(old(View()), old(modifier).value, c)
    {
      var t := modifier.value;
      modifier := None;
      var d := Cleanup(c);
      PutCleaned(View(), t, c);
      var e := cacheCoins[t];
      StoreEntry(t, CacheEntry(d, true, e.isFresh));
      if e.isFresh && d.IsPruned() {
        EraseEntry(t, old(View()), d);
      }
    }

    method EraseEntry(t: Hash, ghost m: CoinMap, c: Coins)
      requires Valid() && modifier == None
      requires t in cacheCoins && cacheCoins[t].isFresh && c.IsPruned() && c.IsTrimmed()
      requires View() == Put(m, t, cacheCoins[t].coins)
      modifies this
      ensures hashBlock == old(hashBlock) && modifier == old(modifier)
      ensures Valid() && LevelsBelow() == old(LevelsBelow())
      ensures cacheCoins == old(cacheCoins) - {t}
      ensures View() == Put(m, t, c)
    {
      ViewWellFormedBelow();
      OverlayErase(Below(), cacheCoins, t, c);
      PutPut(m, t, cacheCoins[t].coins, c);
      cacheCoins := cacheCoins - {t};
    }

    /** One turn of BatchWrite: m is the view at the start, done the entries already seen. */
    method WriteEntry(ghost m: CoinMap, ghost done: Cache, t: Hash, e: CacheEntry)
      requires Valid() && modifier == None && View() == Overlay(m, done) && t !in done
      requires EntryOk(e, At(m, t)) && (!e.isFresh ==> t in cacheCoins)
      modifies this
      ensures hashBlock == old(hashBlock) && modifier == old(modifier)
      ensures Valid() && LevelsBelow() == old(LevelsBelow())
      ensures View() == Overlay(m, done[t := e])
      ensures old(cacheCoins.Keys) - {t} <= cacheCoins.Keys
    {
      ViewWellFormed();
      OverlayStore(m, done, t, e);
      assert At(View(), t).Same(At(m, t));
      if e.isDirty {
        if t !in cacheCoins {
          assert At(View(), t).Same(At(Below(), t));
          if !e.coins.IsPruned() {
            assert e.isFresh;
            StoreEntry(t, CacheEntry(e.coins, true, true));
          } else {
            PutSame(View(), t, e.coins);
          }
        } else if cacheCoins[t].isFresh && e.coins.IsPruned() {
          ghost var view := View();
          PutTop(Below(), cacheCoins, t);
          EraseEntry(t, view, e.coins);
        } else {
          StoreEntry(t, CacheEntry(e.coins, true, cacheCoins[t].isFresh));
        }
      } else {
        PutSame(View(), t, e.coins);
      }
    }

    /** The loop of BatchWrite. */
    method WriteEntries(entries: Cache)
      requires Valid() && modifier == None && LayerOk(View(), entries)
      requires forall t :: t in entries && !entries[t].isFresh ==> t in cacheCoins
      modifies this
      ensures hashBlock == old(hashBlock) && modifier == old(modifier)
      ensures Valid() && LevelsBelow() == old(LevelsBelow())
      ensures View() == Overlay(old(View()), entries)
    {
      ghost var m := View();
      var rest := entries.Keys;
      MinusAll(m, entries);
      while |rest| > 0
        invariant rest <= entries.Keys
        invariant hashBlock == old(hashBlock) && modifier == None
        invariant Valid() && LevelsBelow() == old(LevelsBelow())
        invariant forall t :: t in rest && !entries[t].isFresh ==> t in cacheCoins
        invariant View() == Overlay(m, entries - rest)
      {
        rest := WriteNext(m, entries, rest);
      }
    }

    method WriteNext(ghost m: CoinMap, entries: Cache, rest: set<Hash>) returns (rest': set<Hash>)
      requires Valid() && modifier == None && LayerOk(m, entries)
      requires |rest| > 0 && rest <= entries.Keys && View() == Overlay(m, entries - rest)
      requires forall t :: t in rest && !entries[t].isFresh ==> t in cacheCoins
      modifies this
      ensures hashBlock == old(hashBlock) && modifier == None
      ensures Valid() && LevelsBelow() == old(LevelsBelow())
      ensures |rest'| < |rest| && rest' <= rest && View() == Overlay(m, entries - rest')
      ensures forall t :: t in rest' && !entries[t].isFresh ==> t in cacheCoins
    {
      var t := Pick(rest);
      MinusOne(entries, rest, t);
      WriteEntry(m, entries - rest, t, entries[t]);
      rest' := rest - {t};
    }

    /** Takes over a child's entries. Every assertion about fresh entries holds, and nothing is
        lost by deleting fresh entries the child pruned. */
    method BatchWrite(entries: Cache, hashIn: Hash)
      requires Valid() && modifier == None && LayerOk(View(), entries)
      requires forall t :: t in entries && !entries[t].isFresh ==> t in cacheCoins
      modifies this
      ensures Valid() && modifier == None && LevelsBelow() == old(LevelsBelow())
      ensures View() == Overlay(old(View()), entries)
      ensures hashBlock == hashIn
    {
      WriteEntries(entries);
      hashBlock := hashIn;
    }

    /** Pushes everything to the view below, which then shows what this one shows. The best block
        stays exactly when this cache names one, lies over the database, or the cache below shows
        the same block as the view below that. */
    method Flush()
      requires Valid() && modifier == None
      modifies Repr
      ensures Valid() && modifier == None && cacheCoins == map[] && hashBlock == old(hashBlock)
      ensures View() == old(View())
      ensures LevelsBelow() == Flushed(old(LevelsBelow()), old(View()), hashBlock)
      ensures Best() == old(Best())
              <==> var below := old(LevelsBelow()); hashBlock != 0 || below.Bottom? || below.best == below.under.best
    {
      match base {
        case OnDB(db) => db.BatchWrite(cacheCoins, hashBlock);
        case OnCache(c) =>
          assert LevelsBelow() == c.AllLevels() && Below() == c.View();
          c.BatchWrite(cacheCoins, hashBlock);
          assert LevelsBelow() == c.AllLevels() && Below() == c.View();
      }
      cacheCoins := map[];
      ViewWellFormedBelow();
      OverlayEmpty(Below());
    }
  }
}
