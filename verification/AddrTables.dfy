/**
 * How the five indexes of the address manager depend on each other, and that each of the small steps they are
 * changed by keeps the dependencies (src/addrman.cpp). zero holds the entries that may have no reference for a
 * moment, limbo those that neither counter counts.
 */
module AddrTables {
  import opened AddrInfo

  ghost function Slots(table: map<Slot, int>, id: int): set<Slot> {
    set s | s in table && table[s] == id
  }

  ghost function Tried(info: map<int, Info>): set<int> {
    set id | id in info && info[id].inTried
  }

  ghost function Untried(info: map<int, Info>): set<int> {
    set id | id in info && !info[id].inTried
  }

  lemma AddedSides(info: map<int, Info>, id: int, x: Info, limbo: set<int>)
    requires id !in info && !x.inTried
    ensures Tried(info[id := x]) == Tried(info) && Untried(info[id := x]) == Untried(info) + {id}
    ensures Untried(info[id := x]) - (limbo + {id}) == Untried(info) - limbo
  {
    var info' := info[id := x];
    assert Tried(info') == Tried(info) && Untried(info') == Untried(info) + {id};
  }

  lemma SameSides(info: map<int, Info>, id: int, x: Info)
    requires id in info && info[id].inTried == x.inTried
    ensures Tried(info[id := x]) == Tried(info) && Untried(info[id := x]) == Untried(info)
  {
  }

  /** id changes sides. */
  lemma OtherSides(info: map<int, Info>, id: int, b: bool, limbo: set<int>)
    requires id in info && info[id].inTried != b && (b ==> id in limbo)
    ensures Untried(WithTried(info, id, b)) - (if b then limbo - {id} else limbo + {id}) == Untried(info) - limbo
    ensures Tried(WithTried(info, id, b)) == if b then Tried(info) + {id} else Tried(info) - {id}
    ensures Untried(WithTried(info, id, b)) == if b then Untried(info) - {id} else Untried(info) + {id}
  {
  }

  /** The five indexes, the counters and the key. */
  datatype Tables = Tables(key: Hashes, info: map<int, Info>, addr: map<int, int>, random: seq<int>,
                           vvNew: map<Slot, int>, vvTried: map<Slot, int>, nNew: int, nTried: int, idCount: nat) {

    /** What holds of the entry with number id. */
    ghost predicate EntryOk(zero: set<int>, id: int)
      requires id in info
    {
      var x := info[id];
      && 0 <= id < idCount
      && x.lastTry >= 0 && x.lastSuccess >= 0
      && x.service.net in addr && addr[x.service.net] == id
      && x.randomPos < |random| && random[x.randomPos] == id
      && x.refCount == |Slots(vvNew, id)| <= NEW_BUCKETS_PER_ADDRESS
      && (x.inTried ==>
            x.lastSuccess > 0 && x.refCount == 0 && TriedSlot(key, x.service) in vvTried &&
              vvTried[TriedSlot(key, x.service)] == id)
      && (!x.inTried && x.refCount == 0 ==> id in zero)
    }

    ghost predicate NetOk(n: int)
      requires n in addr
    {
      addr[n] in info && info[addr[n]].service.net == n
    }

    ghost predicate PosOk(k: int)
      requires 0 <= k < |random|
    {
      random[k] in info && info[random[k]].randomPos == k
    }

    ghost predicate TriedSlotOk(s: Slot)
      requires s in vvTried
    {
      vvTried[s] in info && info[vvTried[s]].inTried && s == TriedSlot(key, info[vvTried[s]].service)
    }

    ghost predicate NewSlotOk(s: Slot)
      requires s in vvNew
    {
      && s.bucket < NEW_BUCKET_COUNT
      && vvNew[s] in info && !info[vvNew[s]].inTried
      && s == NewSlot(key, s.bucket, info[vvNew[s]].service)
    }

    ghost predicate EntriesOk(zero: set<int>) { forall i {:trigger EntryOk(zero, i)} :: i in info ==> EntryOk(zero, i) }
    ghost predicate NetsOk() { forall n {:trigger NetOk(n)} :: n in addr ==> NetOk(n) }
    ghost predicate PlacesOk() { forall k {:trigger PosOk(k)} :: 0 <= k < |random| ==> PosOk(k) }
    ghost predicate TriedOk() { forall s {:trigger TriedSlotOk(s)} :: s in vvTried ==> TriedSlotOk(s) }
    ghost predicate NewOk() { forall s {:trigger NewSlotOk(s)} :: s in vvNew ==> NewSlotOk(s) }

    ghost predicate CountOk(limbo: set<int>) {
      && limbo <= Untried(info)
      && nTried == |Tried(info)|
      && nNew == |Untried(info) - limbo|
    }

    ghost predicate Ok(zero: set<int>, limbo: set<int>) {
      EntriesOk(zero) && NetsOk() && PlacesOk() && TriedOk() && NewOk() && CountOk(limbo)
    }

    // ---- What the steps make of the tables ----

    function WithInfo(info': map<int, Info>): Tables { this.(info := info') }

    /** One entry more, with the next number, at the end of random. */
    function Created(x: Info): Tables {
      this.(info := info[idCount := x], addr := addr[x.service.net := idCount], random := random + [idCount],
            idCount := idCount + 1)
    }

    function Swap(p: nat, q: nat): Tables
      requires p < |random| && q < |random| && random[p] in info && random[q] in info
    {
      this.(info := WithPos(WithPos(info, random[p], q), random[q], p), random := Swapped(random, p, q))
    }

    /** The last entry of random is gone. */
    function Dropped(id: int): Tables
      requires id in info && |random| > 0
    {
      this.(info := info - {id}, addr := addr - {info[id].service.net}, random := random[..|random| - 1],
            nNew := nNew - 1)
    }

    function Unlinked(s: Slot): Tables
      requires s in vvNew && vvNew[s] in info && info[vvNew[s]].refCount > 0
    {
      this.(info := WithRef(info, vvNew[s], info[vvNew[s]].refCount - 1), vvNew := vvNew - {s})
    }

    function Linked(id: int, bucket: nat): Tables
      requires id in info
    {
      this.(info := WithRef(info, id, info[id].refCount + 1),
            vvNew := vvNew[NewSlot(key, bucket, info[id].service) := id])
    }

    function Promoted(id: int): Tables
      requires id in info
    {
      this.(info := WithTried(info, id, true), vvTried := vvTried[TriedSlot(key, info[id].service) := id],
            nTried := nTried + 1)
    }

    function Demoted(s: Slot): Tables
      requires s in vvTried && vvTried[s] in info
    {
      this.(info := WithTried(info, vvTried[s], false), vvTried := vvTried - {s}, nTried := nTried - 1)
    }
  }

  function Swapped(random: seq<int>, i: nat, j: nat): (r: seq<int>)
    requires i < |random| && j < |random|
    ensures |r| == |random|
  {
    random[i := random[j]][j := random[i]]
  }

  // ---- What a step leaves alone ----

  ghost predicate SameService(t: Tables, t': Tables, i: int) {
    i in t.info ==> i in t'.info && t'.info[i].service == t.info[i].service
  }

  ghost predicate SameSide(t: Tables, t': Tables, i: int) {
    SameService(t, t', i) && (i in t.info && i in t'.info ==> t'.info[i].inTried == t.info[i].inTried)
  }

  ghost predicate SamePos(t: Tables, t': Tables, i: int) {
    i in t.info ==> i in t'.info && t'.info[i].randomPos == t.info[i].randomPos
  }

  lemma NetsStay(t: Tables, t': Tables)
    requires t.NetsOk() && t'.addr == t.addr && forall i {:trigger SameService(t, t', i)} :: SameService(t, t', i)
    ensures t'.NetsOk()
  {
    forall n | n in t'.addr
      ensures t'.NetOk(n)
    {
      assert t.NetOk(n) && SameService(t, t', t.addr[n]);
    }
  }

  lemma PlacesStay(t: Tables, t': Tables)
    requires t.PlacesOk() && t'.random == t.random && forall i {:trigger SamePos(t, t', i)} :: SamePos(t, t', i)
    ensures t'.PlacesOk()
  {
    forall k | 0 <= k < |t'.random|
      ensures t'.PosOk(k)
    {
      assert t.PosOk(k) && SamePos(t, t', t.random[k]);
    }
  }

  lemma TriedStays(t: Tables, t': Tables)
    requires t.TriedOk() && t'.key == t.key && t'.vvTried == t.vvTried
    requires forall i {:trigger SameSide(t, t', i)} :: SameSide(t, t', i)
    ensures t'.TriedOk()
  {
    forall s | s in t'.vvTried
      ensures t'.TriedSlotOk(s)
    {
      assert t.TriedSlotOk(s) && SameSide(t, t', t.vvTried[s]);
    }
  }

  /** Slots may go, but no entry changes sides. */
  lemma NewStays(t: Tables, t': Tables)
    requires t.NewOk() && t'.key == t.key && forall s :: s in t'.vvNew ==> s in t.vvNew && t'.vvNew[s] == t.vvNew[s]
    requires forall i {:trigger SameSide(t, t', i)} :: SameSide(t, t', i)
    ensures t'.NewOk()
  {
    forall s | s in t'.vvNew
      ensures t'.NewSlotOk(s)
    {
      assert t.NewSlotOk(s) && SameSide(t, t', t.vvNew[s]);
    }
  }

  // ---- The steps ----

  /** Two versions of an entry that only differ in what is remembered about it. */
  predicate SamePlace(x: Info, y: Info) {
    x.service == y.service && x.refCount == y.refCount && x.inTried == y.inTried && x.randomPos == y.randomPos
  }

  /** Updating the statistics of an entry. */
  lemma TouchKeeps(t: Tables, zero: set<int>, limbo: set<int>, id: int, x: Info)
    requires t.Ok(zero, limbo) && id in t.info && SamePlace(t.info[id], x)
    requires x.lastTry >= 0 && x.lastSuccess >= 0 && (x.inTried ==> x.lastSuccess > 0)
    ensures t.WithInfo(t.info[id := x]).Ok(zero, limbo)
  {
    var t' := t.WithInfo(t.info[id := x]);
    forall i | i in t'.info
      ensures t'.EntryOk(zero, i)
    {
      assert t.EntryOk(zero, i);
    }
    NetsStay(t, t');
    PlacesStay(t, t');
    TriedStays(t, t');
    NewStays(t, t');
    SameSides(t.info, id, x);
  }

  /** The next number is not in use. */
  lemma Unused(t: Tables, zero: set<int>, limbo: set<int>)
    requires t.Ok(zero, limbo)
    ensures t.idCount !in t.info && Slots(t.vvNew, t.idCount) == {}
  {
    assert t.idCount in t.info ==> t.EntryOk(zero, t.idCount);
    forall s | s in t.vvNew
      ensures t.vvNew[s] != t.idCount
    {
      assert t.NewSlotOk(s);
    }
  }

  /** A new entry, which no counter counts yet. */
  lemma CreateKeeps(t: Tables, zero: set<int>, limbo: set<int>, x: Info)
    requires t.Ok(zero, limbo) && x.service.net !in t.addr
    requires x.randomPos == |t.random| && x.refCount == 0 && !x.inTried && x.lastTry >= 0 && x.lastSuccess >= 0
    ensures t.Created(x).Ok(zero + {t.idCount}, limbo + {t.idCount})
  {
    Unused(t, zero, limbo);
    var t' := t.Created(x);
    CreateEntries(t, zero, x);
    forall n | n in t'.addr
      ensures t'.NetOk(n)
    {
      assert n in t.addr ==> t.NetOk(n);
    }
    forall k | 0 <= k < |t'.random|
      ensures t'.PosOk(k)
    {
      assert k < |t.random| ==> t.PosOk(k);
    }
    TriedStays(t, t');
    NewStays(t, t');
    AddedSides(t.info, t.idCount, x, limbo);
  }

  lemma CreateEntries(t: Tables, zero: set<int>, x: Info)
    requires t.EntriesOk(zero) && x.service.net !in t.addr && Slots(t.vvNew, t.idCount) == {}
    requires x.randomPos == |t.random| && x.refCount == 0 && !x.inTried && x.lastTry >= 0 && x.lastSuccess >= 0
    ensures t.Created(x).EntriesOk(zero + {t.idCount})
  {
    var t' := t.Created(x);
    forall i | i in t'.info
      ensures t'.EntryOk(zero + {t.idCount}, i)
    {
      assert i in t.info ==> t.EntryOk(zero, i);
    }
  }

  /** The entries and tables are what they were; only the counter of new entries has moved. */
  lemma CountedAlike(t: Tables, n: int, zero: set<int>)
    requires t.EntriesOk(zero) && t.NetsOk() && t.PlacesOk() && t.TriedOk() && t.NewOk()
    ensures var t' := t.(nNew := n); t'.EntriesOk(zero) && t'.NetsOk() && t'.PlacesOk() && t'.TriedOk() && t'.NewOk()
  {
    var t' := t.(nNew := n);
    forall i | i in t'.info
      ensures t'.EntryOk(zero, i)
    {
      assert t.EntryOk(zero, i);
    }
    NetsStay(t, t');
    PlacesStay(t, t');
    TriedStays(t, t');
    NewStays(t, t');
  }

  /** Counting an entry as new. */
  lemma CountKeeps(t: Tables, zero: set<int>, limbo: set<int>, id: int)
    requires t.Ok(zero, limbo) && id in limbo
    ensures t.(nNew := t.nNew + 1).Ok(zero, limbo - {id})
  {
    CountedAlike(t, t.nNew + 1, zero);
    assert Untried(t.info) - (limbo - {id}) == Untried(t.info) - limbo + {id};
  }

  lemma UncountKeeps(t: Tables, zero: set<int>, limbo: set<int>, id: int)
    requires t.Ok(zero, limbo) && id in t.info && !t.info[id].inTried && id !in limbo
    ensures t.(nNew := t.nNew - 1).Ok(zero, limbo + {id})
  {
    CountedAlike(t, t.nNew - 1, zero);
    assert Untried(t.info) - (limbo + {id}) == Untried(t.info) - limbo - {id};
  }

  /** zero may shrink to the entries that really have no reference. */
  lemma ZeroKeeps(t: Tables, zero: set<int>, limbo: set<int>, zero': set<int>)
    requires t.Ok(zero, limbo)
    requires forall id :: id in zero && id in t.info && !t.info[id].inTried && t.info[id].refCount == 0 ==> id in zero'
    ensures t.Ok(zero', limbo)
  {
    forall i | i in t.info
      ensures t.EntryOk(zero', i)
    {
      assert t.EntryOk(zero, i);
    }
  }

  /** Swapping two places of vRandom. */
  lemma SwapKeeps(t: Tables, zero: set<int>, limbo: set<int>, p: nat, q: nat)
    requires t.Ok(zero, limbo) && p < |t.random| && q < |t.random| && p != q
    ensures t.random[p] in t.info && t.random[q] in t.info
    ensures t.Swap(p, q).Ok(zero, limbo)
  {
    assert t.PosOk(p) && t.PosOk(q);
    var t' := t.Swap(p, q);
    forall i | i in t'.info
      ensures t'.EntryOk(zero, i)
    {
      assert t.EntryOk(zero, i);
    }
    forall k | 0 <= k < |t'.random|
      ensures t'.PosOk(k)
    {
      assert t.PosOk(k);
    }
    NetsStay(t, t');
    TriedStays(t, t');
    NewStays(t, t');
    assert Tried(t'.info) == Tried(t.info) && Untried(t'.info) == Untried(t.info);
  }

  lemma NoSlots(t: Tables, zero: set<int>, limbo: set<int>, id: int)
    requires t.Ok(zero, limbo) && id in t.info && t.info[id].refCount == 0
    ensures forall s :: s in t.vvNew ==> t.vvNew[s] != id
  {
    assert t.EntryOk(zero, id);
    forall s | s in t.vvNew
      ensures t.vvNew[s] != id
    {
      assert t.vvNew[s] == id ==> s in Slots(t.vvNew, id);
    }
  }

  /** Dropping the last entry of vRandom, which has no reference. */
  lemma DropKeeps(t: Tables, zero: set<int>, limbo: set<int>, id: int)
    requires t.Ok(zero, limbo) && id in t.info && !t.info[id].inTried && t.info[id].refCount == 0 && id !in limbo
    requires t.info[id].randomPos == |t.random| - 1
    ensures t.Dropped(id).Ok(zero - {id}, limbo)
  {
    assert t.EntryOk(zero, id);
    var t' := t.Dropped(id);
    NoSlots(t, zero, limbo, id);
    forall i | i in t'.info
      ensures t'.EntryOk(zero - {id}, i)
    {
      assert t.EntryOk(zero, i);
    }
    forall n | n in t'.addr
      ensures t'.NetOk(n)
    {
      assert t.NetOk(n);
    }
    forall k | 0 <= k < |t'.random|
      ensures t'.PosOk(k)
    {
      assert t.PosOk(k);
    }
    DropSlots(t, id);
    assert Tried(t'.info) == Tried(t.info) && Untried(t'.info) == Untried(t.info) - {id};
    assert Untried(t'.info) - limbo == Untried(t.info) - limbo - {id};
  }

  lemma DropSlots(t: Tables, id: int)
    requires t.TriedOk() && t.NewOk() && id in t.info && !t.info[id].inTried && |t.random| > 0
    requires forall s :: s in t.vvNew ==> t.vvNew[s] != id
    ensures t.Dropped(id).TriedOk() && t.Dropped(id).NewOk()
  {
    var t' := t.Dropped(id);
    forall s | s in t'.vvTried
      ensures t'.TriedSlotOk(s)
    {
      assert t.TriedSlotOk(s);
    }
    forall s | s in t'.vvNew
      ensures t'.NewSlotOk(s)
    {
      assert t.NewSlotOk(s);
    }
  }

  lemma SlotsWithout(vvNew: map<Slot, int>, s: Slot, i: int)
    requires s in vvNew
    ensures Slots(vvNew - {s}, i) == if i == vvNew[s] then Slots(vvNew, i) - {s} else Slots(vvNew, i)
  {
  }

  lemma SlotsWith(vvNew: map<Slot, int>, s: Slot, id: int, i: int)
    requires s !in vvNew
    ensures Slots(vvNew[s := id], i) == if i == id then Slots(vvNew, i) + {s} else Slots(vvNew, i)
  {
  }

  /** Emptying a slot of the new table takes a reference away. */
  lemma UnlinkKeeps(t: Tables, zero: set<int>, limbo: set<int>, s: Slot)
    requires t.Ok(zero, limbo) && s in t.vvNew
    ensures t.vvNew[s] in t.info && t.info[t.vvNew[s]].refCount > 0 && !t.info[t.vvNew[s]].inTried
    ensures t.Unlinked(s).Ok(zero + {t.vvNew[s]}, limbo)
  {
    var id := t.vvNew[s];
    assert t.NewSlotOk(s) && t.EntryOk(zero, id);
    assert s in Slots(t.vvNew, id);
    var t' := t.Unlinked(s);
    forall i | i in t'.info
      ensures t'.EntryOk(zero + {id}, i)
    {
      SlotsWithout(t.vvNew, s, i);
      assert t.EntryOk(zero, i);
    }
    NetsStay(t, t');
    PlacesStay(t, t');
    TriedStays(t, t');
    NewStays(t, t');
    SameSides(t.info, id, t'.info[id]);
  }

  /** Filling an empty slot of the new table adds a reference. */
  lemma LinkKeeps(t: Tables, zero: set<int>, limbo: set<int>, id: int, bucket: nat)
    requires t.Ok(zero, limbo) && id in t.info && !t.info[id].inTried && t.info[id].refCount < NEW_BUCKETS_PER_ADDRESS
    requires bucket < NEW_BUCKET_COUNT && NewSlot(t.key, bucket, t.info[id].service) !in t.vvNew
    ensures t.Linked(id, bucket).Ok(zero - {id}, limbo)
  {
    var t' := t.Linked(id, bucket);
    LinkEntries(t, zero, id, bucket);
    forall r | r in t'.vvNew
      ensures t'.NewSlotOk(r)
    {
      assert r in t.vvNew ==> t.NewSlotOk(r);
    }
    NetsStay(t, t');
    PlacesStay(t, t');
    TriedStays(t, t');
    SameSides(t.info, id, t'.info[id]);
  }

  lemma LinkEntries(t: Tables, zero: set<int>, id: int, bucket: nat)
    requires t.EntriesOk(zero) && id in t.info && !t.info[id].inTried && t.info[id].refCount < NEW_BUCKETS_PER_ADDRESS
    requires NewSlot(t.key, bucket, t.info[id].service) !in t.vvNew
    ensures t.Linked(id, bucket).EntriesOk(zero - {id})
  {
    var t' := t.Linked(id, bucket);
    forall i | i in t'.info
      ensures t'.EntryOk(zero - {id}, i)
    {
      SlotsWith(t.vvNew, NewSlot(t.key, bucket, t.info[id].service), id, i);
      assert t.EntryOk(zero, i);
    }
  }

  /** An entry in limbo without references moves to its empty slot of the tried table. */
  lemma PromoteKeeps(t: Tables, zero: set<int>, limbo: set<int>, id: int)
    requires t.Ok(zero, limbo) && id in limbo && id in t.info && t.info[id].refCount == 0 && t.info[id].lastSuccess > 0
    requires TriedSlot(t.key, t.info[id].service) !in t.vvTried
    ensures t.Promoted(id).Ok(zero - {id}, limbo - {id})
  {
    assert id in Untried(t.info);
    var t' := t.Promoted(id);
    PromoteEntries(t, zero, id);
    PromoteSlots(t, zero, limbo, id);
    NetsStay(t, t');
    PlacesStay(t, t');
    OtherSides(t.info, id, true, limbo);
  }

  lemma PromoteEntries(t: Tables, zero: set<int>, id: int)
    requires t.EntriesOk(zero) && id in t.info && !t.info[id].inTried && t.info[id].refCount == 0
    requires t.info[id].lastSuccess > 0
    requires TriedSlot(t.key, t.info[id].service) !in t.vvTried
    ensures t.Promoted(id).EntriesOk(zero - {id})
  {
    var t' := t.Promoted(id);
    forall i | i in t'.info
      ensures t'.EntryOk(zero - {id}, i)
    {
      assert t.EntryOk(zero, i);
    }
  }

  lemma PromoteSlots(t: Tables, zero: set<int>, limbo: set<int>, id: int)
    requires t.Ok(zero, limbo) && id in t.info && !t.info[id].inTried && t.info[id].refCount == 0
    requires TriedSlot(t.key, t.info[id].service) !in t.vvTried
    ensures t.Promoted(id).TriedOk() && t.Promoted(id).NewOk()
  {
    var t' := t.Promoted(id);
    NoSlots(t, zero, limbo, id);
    forall s | s in t'.vvTried
      ensures t'.TriedSlotOk(s)
    {
      assert s in t.vvTried ==> t.TriedSlotOk(s);
    }
    forall s | s in t'.vvNew
      ensures t'.NewSlotOk(s)
    {
      assert t.NewSlotOk(s);
    }
  }

  /** The entry in a slot of the tried table is taken out, into limbo. */
  lemma DemoteKeeps(t: Tables, zero: set<int>, limbo: set<int>, s: Slot)
    requires t.Ok(zero, limbo) && s in t.vvTried
    ensures t.vvTried[s] in t.info && t.info[t.vvTried[s]].refCount == 0
    ensures t.Demoted(s).Ok(zero + {t.vvTried[s]}, limbo + {t.vvTried[s]})
  {
    var id := t.vvTried[s];
    assert t.TriedSlotOk(s) && t.EntryOk(zero, id);
    var t' := t.Demoted(s);
    DemoteEntries(t, zero, s);
    DemoteSlots(t, s);
    NetsStay(t, t');
    PlacesStay(t, t');
    OtherSides(t.info, id, false, limbo);
  }

  lemma DemoteEntries(t: Tables, zero: set<int>, s: Slot)
    requires t.EntriesOk(zero) && s in t.vvTried && t.vvTried[s] in t.info && t.TriedSlotOk(s)
    ensures t.Demoted(s).EntriesOk(zero + {t.vvTried[s]})
  {
    var t' := t.Demoted(s);
    forall i | i in t'.info
      ensures t'.EntryOk(zero + {t.vvTried[s]}, i)
    {
      assert t.EntryOk(zero, i);
    }
  }

  lemma DemoteSlots(t: Tables, s: Slot)
    requires t.TriedOk() && t.NewOk() && s in t.vvTried && t.vvTried[s] in t.info
    ensures t.Demoted(s).TriedOk() && t.Demoted(s).NewOk()
  {
    var t' := t.Demoted(s);
    forall r | r in t'.vvTried
      ensures t'.TriedSlotOk(r)
    {
      assert t.TriedSlotOk(r) && t.TriedSlotOk(s);
    }
    forall r | r in t'.vvNew
      ensures t'.NewSlotOk(r)
    {
      assert t.NewSlotOk(r);
    }
  }
}
