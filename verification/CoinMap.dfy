/** The plain meaning of a coin view: one map from transaction hash to unspent coins.
    A pruned transaction is simply not in the map. */
module CoinMap {
  import opened Transactions
  import opened Coins

  /** One entry of a cache; fresh says the view below has no unspent coins for the key. */
  datatype CacheEntry = CacheEntry(coins: Coins, isDirty: bool, isFresh: bool)

  type Cache = map<Hash, CacheEntry>
  type CoinMap = map<Hash, Coins>

  ghost predicate WellFormed(m: CoinMap) {
    forall t :: t in m ==> m[t].IsTrimmed() && !m[t].IsPruned()
  }

  function At(m: CoinMap, t: Hash): Coins {
    if t in m then m[t] else EMPTY
  }

  function Put(m: CoinMap, t: Hash, c: Coins): CoinMap {
    if c.IsPruned() then m - {t} else m[t := c.Cleaned()]
  }

  /** What a store that may hold pruned coins shows. */
  function Unspent(store: map<Hash, Coins>): (m: CoinMap)
    ensures forall t :: t in m <==> t in store && !store[t].IsPruned()
    ensures forall t :: t in m ==> m[t] == store[t]
  {
    map t | t in store && !store[t].IsPruned() :: store[t]
  }

  lemma UnspentStore(store: map<Hash, Coins>, t: Hash, c: Coins)
    requires c.IsTrimmed() && !c.IsPruned()
    ensures Unspent(store[t := c]) == Put(Unspent(store), t, c)
  {
    PutTrimmed(Unspent(store), t, c);
    var l := Unspent(store[t := c]);
    var m := Unspent(store);
    forall u: Hash
      ensures u in l <==> u in m[t := c]
      ensures u in l ==> l[u] == m[t := c][u]
    {
      assert u in l <==> u in store[t := c] && !store[t := c][u].IsPruned();
    }
    assert l == m[t := c];
  }

  lemma UnspentErase(store: map<Hash, Coins>, t: Hash, c: Coins)
    requires c.IsTrimmed() && c.IsPruned()
    ensures Unspent(store - {t}) == Put(Unspent(store), t, c)
  {
    PutTrimmed(Unspent(store), t, c);
    var l := Unspent(store - {t});
    var m := Unspent(store);
    forall u: Hash
      ensures u in l <==> u in m - {t}
      ensures u in l ==> l[u] == m[u]
    {
      assert u in l <==> u in store - {t} && !(store - {t})[u].IsPruned();
    }
    assert l == m - {t};
  }

  /** The coins seen at t through a cache over a view. */
  function Top(below: CoinMap, cache: Cache, t: Hash): Coins {
    if t in cache then cache[t].coins else At(below, t)
  }

  /** What a cache over a view shows. */
  function Overlay(below: CoinMap, cache: Cache): (m: CoinMap)
    ensures forall t :: t in m <==> !Top(below, cache, t).IsPruned()
    ensures forall t :: t in m ==> m[t] == Top(below, cache, t)
  {
    map t | t in below.Keys + cache.Keys && !Top(below, cache, t).IsPruned() :: Top(below, cache, t)
  }

  /** The promise an entry's flags make about the view below. */
  ghost predicate EntryOk(e: CacheEntry, below: Coins) {
    && e.coins.IsTrimmed()
    && (!e.isDirty ==> e.coins.Same(below))
    && (e.isFresh ==> below.IsPruned())
  }

  ghost predicate LayerOk(below: CoinMap, cache: Cache) {
    && WellFormed(below)
    && forall t :: t in cache ==> EntryOk(cache[t], At(below, t))
  }

  lemma LayerStore(below: CoinMap, cache: Cache, t: Hash, e: CacheEntry)
    requires LayerOk(below, cache) && EntryOk(e, At(below, t))
    ensures LayerOk(below, cache[t := e])
  {}

  lemma MinusOne(entries: Cache, rest: set<Hash>, t: Hash)
    requires t in rest && t in entries
    ensures entries - (rest - {t}) == (entries - rest)[t := entries[t]]
  {}

  lemma MinusAll(below: CoinMap, entries: Cache)
    requires WellFormed(below)
    ensures Overlay(below, entries - entries.Keys) == below && entries - {} == entries
  {
    OverlayEmpty(below);
    assert entries - entries.Keys == map[];
  }

  /** Any element: the iteration order of the source's hash map is not specified. */
  method Pick<T>(s: set<T>) returns (t: T)
    requires |s| > 0
    ensures t in s && |s - {t}| < |s|
  {
    t :| t in s;
  }

  lemma OverlayWellFormed(below: CoinMap, cache: Cache)
    requires LayerOk(below, cache)
    ensures WellFormed(Overlay(below, cache))
  {}

  lemma OverlayEmpty(below: CoinMap)
    requires WellFormed(below)
    ensures Overlay(below, map[]) == below
  {
    assert forall t :: t in Overlay(below, map[]) <==> t in below;
  }

  lemma PutTrimmed(m: CoinMap, t: Hash, c: Coins)
    requires c.IsTrimmed()
    ensures Put(m, t, c) == if c.IsPruned() then m - {t} else m[t := c]
  {
    TrimmedIsFixed(c.vout);
  }

  /** Storing an entry stores its coins in what the cache shows. */
  lemma OverlayStore(below: CoinMap, cache: Cache, t: Hash, e: CacheEntry)
    requires e.coins.IsTrimmed()
    ensures Overlay(below, cache[t := e]) == Put(Overlay(below, cache), t, e.coins)
  {
    PutTrimmed(Overlay(below, cache), t, e.coins);
    TopElsewhere(below, cache, cache[t := e], t);
    OverlayPoint(below, cache, cache[t := e], t, e.coins);
  }

  lemma TopElsewhere(below: CoinMap, cache: Cache, cache': Cache, t: Hash)
    requires cache - {t} == cache' - {t}
    ensures forall u :: u != t ==> Top(below, cache', u) == Top(below, cache, u)
  {
    forall u | u != t
      ensures Top(below, cache', u) == Top(below, cache, u)
    {
      assert u in cache <==> u in cache - {t};
      assert u in cache' <==> u in cache' - {t};
      if u in cache {
        assert cache[u] == (cache - {t})[u] == (cache' - {t})[u] == cache'[u];
      }
    }
  }

  lemma OverlayPoint(below: CoinMap, cache: Cache, cache': Cache, t: Hash, c: Coins)
    requires forall u :: u != t ==> Top(below, cache', u) == Top(below, cache, u)
    requires Top(below, cache', t).Same(c)
    ensures Overlay(below, cache') ==
            if c.IsPruned() then Overlay(below, cache) - {t} else Overlay(below, cache)[t := c]
  {
    var l := Overlay(below, cache');
    var m := Overlay(below, cache);
    forall u: Hash
      ensures u in l <==> (if u == t then !c.IsPruned() else u in m)
      ensures u in l ==> l[u] == if u == t then c else m[u]
    {
      assert u in l <==> !Top(below, cache', u).IsPruned();
      assert u in m <==> !Top(below, cache, u).IsPruned();
      if u == t {
        assert Top(below, cache', t).Same(c);
      }
    }
    if c.IsPruned() {
      assert l == m - {t};
    } else {
      assert l == m[t := c];
    }
  }

  /** Erasing an entry uncovers the view below. */
  lemma OverlayErase(below: CoinMap, cache: Cache, t: Hash, c: Coins)
    requires t !in below && c.IsPruned()
    ensures Overlay(below, cache - {t}) == Put(Overlay(below, cache), t, c)
  {
    TopElsewhere(below, cache, cache - {t}, t);
    OverlayPoint(below, cache, cache - {t}, t, c);
  }

  /** Putting back what is already shown changes nothing. */
  lemma PutSame(m: CoinMap, t: Hash, c: Coins)
    requires WellFormed(m) && c.IsTrimmed() && c.Same(At(m, t))
    ensures Put(m, t, c) == m
  {
    PutTrimmed(m, t, c);
  }

  lemma PutCleaned(m: CoinMap, t: Hash, c: Coins)
    ensures Put(m, t, c.Cleaned()) == Put(m, t, c)
  {
    TrimmedIsFixed(c.Cleaned().vout);
  }

  lemma PutPut(m: CoinMap, t: Hash, c: Coins, d: Coins)
    ensures Put(Put(m, t, c), t, d) == Put(m, t, d)
  {}

  /** The cached coins of t are what the cache shows for t. */
  lemma PutTop(below: CoinMap, cache: Cache, t: Hash)
    requires t in cache && cache[t].coins.IsTrimmed()
    ensures Put(Overlay(below, cache), t, cache[t].coins) == Overlay(below, cache)
  {
    PutTrimmed(Overlay(below, cache), t, cache[t].coins);
  }
}
