/** The address manager (src/addrman.cpp, src/addrman.h). A slot that a bucket table does not have is empty. */
module AddrMan {
  import opened AddrInfo
  import opened AddrTables
  import opened Sets

  /** The same entry, perhaps at another place of vRandom. */
  predicate Alike(x: Info, y: Info) {
    x == y.(randomPos := x.randomPos)
  }

  ghost predicate StillThere(before: map<int, Info>, after: map<int, Info>, i: int) {
    i in before ==> i in after && Alike(after[i], before[i])
  }

  /** All entries but one are as before. */
  ghost predicate OthersStay(before: map<int, Info>, after: map<int, Info>, but: set<int>) {
    forall i {:trigger StillThere(before, after, i)} :: i !in but ==> StillThere(before, after, i)
  }

  /** The same if more entries may have changed, and over two steps. */
  lemma StayTwice(a: map<int, Info>, b: map<int, Info>, c: map<int, Info>, but1: set<int>, but2: set<int>,
                  but: set<int>)
    requires OthersStay(a, b, but1) && OthersStay(b, c, but2) && but1 <= but && but2 <= but
    ensures OthersStay(a, c, but)
  {
    forall i | i !in but
      ensures StillThere(a, c, i)
    {
      assert StillThere(a, b, i) && StillThere(b, c, i);
    }
  }

  lemma StayButNew(a: map<int, Info>, b: map<int, Info>, id: int, but: set<int>)
    requires OthersStay(a, b, {id} + but) && id !in a
    ensures OthersStay(a, b, but)
  {
    forall i | i !in but
      ensures StillThere(a, b, i)
    {
      assert i != id ==> StillThere(a, b, i);
    }
  }

  lemma StayWithout(a: map<int, Info>, id: int)
    ensures OthersStay(a, a - {id}, {id})
  {
  }

  lemma StayExcept(a: map<int, Info>, id: int, x: Info)
    ensures OthersStay(a, a[id := x], {id})
  {
  }

  lemma AlikeOneMore(x: Info, y: Info)
    requires Alike(x, y)
    ensures Alike(x.(refCount := x.refCount + 1), y.(refCount := y.refCount + 1))
  {
  }

  lemma RefTwice(info: map<int, Info>, id: int, m: nat, n: nat)
    requires id in info
    ensures WithRef(WithRef(info, id, m), id, n) == WithRef(info, id, n)
  {
  }

  lemma StayMoved(info: map<int, Info>, i: int, j: int, p: nat, q: nat)
    requires i in info && j in info
    ensures var info' := WithPos(WithPos(info, i, p), j, q); info'.Keys == info.Keys && OthersStay(info, info', {})
  {
  }

  lemma PutTwice(info: map<int, Info>, id: int, x: Info, y: Info)
    ensures info[id := x][id := y] == info[id := y]
  {
  }

  lemma Refilled(table: map<Slot, int>, s: Slot, id: int)
    ensures (table - {s})[s := id] == table[s := id]
  {
  }

  /** A new entry may take the slot: it is empty, or its entry is bad or has other references. */
  predicate Available(info: map<int, Info>, table: map<Slot, int>, s: Slot, now: int) {
    s !in table || (table[s] in info && (IsTerrible(info[table[s]], now) || info[table[s]].refCount > 1))
  }

  /** What Add_ makes of an unknown address. */
  function Kept(a: Address, source: int, penalty: int): Info {
    NewInfo(a, source, 0).(time := Max(0, a.time - penalty), refCount := 1)
  }

  /** The slot belongs to the entry of the address, which can be found. */
  ghost predicate KeptAt(info: map<int, Info>, addr: map<int, int>, table: map<Slot, int>, s: Slot, x: Info) {
    && s in table && table[s] in info && Alike(info[table[s]], x)
    && x.service.net in addr && addr[x.service.net] == table[s]
  }

  /** Entries, addresses and the new table are as before, apart from places of vRandom. */
  ghost predicate Untouched(info: map<int, Info>, addr: map<int, int>, table: map<Slot, int>,
                            info': map<int, Info>, addr': map<int, int>, table': map<Slot, int>) {
    table' == table && addr' == addr && info'.Keys == info.Keys && OthersStay(info, info', {})
  }

  /** An entry may take the slot: it is empty, or its entry is bad, or that one has other references
      and the entry itself has none. */
  predicate Free(info: map<int, Info>, table: map<Slot, int>, s: Slot, id: int, now: int) {
    s !in table || (table[s] in info && id in info &&
      (IsTerrible(info[table[s]], now) || (info[table[s]].refCount > 1 && info[id].refCount == 0)))
  }

  lemma FreeForNew(info: map<int, Info>, table: map<Slot, int>, s: Slot, id: int, x: Info, now: int)
    requires id !in info && x.refCount == 0 && (s in table ==> table[s] in info)
    ensures Free(info[id := x], table, s, id, now) <==> Available(info, table, s, now)
  {
  }

  class AddrManager {
    const h: Hashes

    var mapInfo: map<int, Info>
    var mapAddr: map<int, int>
    var vRandom: seq<int>
    var vvNew: map<Slot, int>
    var vvTried: map<Slot, int>
    var nNew: int
    var nTried: int
    var nIdCount: nat
    var nLastGood: int

    ghost function Now(): Tables
      reads this
    {
      Tables(h, mapInfo, mapAddr, vRandom, vvNew, vvTried, nNew, nTried, nIdCount)
    }

    ghost predicate Inv(zero: set<int>, limbo: set<int>)
      reads this
    {
      Now().Ok(zero, limbo)
    }

    /** Every entry is in a table and counted. */
    ghost predicate Valid()
      reads this
    {
      Inv({}, {})
    }

    constructor (h: Hashes)
      ensures Valid() && this.h == h
      ensures mapInfo == map[] && mapAddr == map[] && vRandom == [] && vvNew == map[] && vvTried == map[]
    {
      this.h := h;
      mapInfo, mapAddr, vRandom, vvNew, vvTried := map[], map[], [], map[], map[];
      nNew, nTried, nIdCount, nLastGood := 0, 0, 0, 1;
      new;
      assert Tried(map[]) == {} && Untried(map[]) - {} == {};
    }

    /**
     * Empties everything but mapInfo and mapAddr. The result is consistent exactly if these were empty already, which
     * is so for a new manager but not for one that has been in use.
     */
    method Clear()
      modifies this
      ensures vRandom == [] && vvNew == map[] && vvTried == map[] && mapInfo == old(mapInfo) && mapAddr == old(mapAddr)
      ensures nNew == nTried == nIdCount == 0 && nLastGood == 1
      ensures Valid() <==> mapInfo == map[] && mapAddr == map[]
    {
      vRandom, vvNew, vvTried := [], map[], map[];
      nNew, nTried, nIdCount, nLastGood := 0, 0, 0, 1;
      ClearedMeans();
    }

    lemma NoValues(m: map<int, int>)
      ensures m.Values == {} ==> m == map[]
    {
      assert forall n :: n in m ==> m[n] in m.Values;
    }

    lemma ClearedMeans()
      requires vRandom == [] && vvNew == map[] && vvTried == map[] && nNew == nTried == nIdCount == 0
      ensures Valid() <==> mapInfo == map[] && mapAddr == map[]
    {
      if Valid() {
        RandomSize();
        NetsMatch();
        NoValues(mapAddr);
      }
      assert Tried(map[]) == {} && Untried(map[]) - {} == {};
    }

    /** A random number below max. */
    method RandomInt(max: nat) returns (r: nat)
      requires max > 0
      ensures r < max
    {
      r :| r < max;
    }

    /** The entry of a network address, whatever its port. */
    function Find(net: int): (id: int)
      reads this
      ensures id == -1 || (net in mapAddr && id in mapInfo)
    {
      if net in mapAddr && mapAddr[net] in mapInfo then mapAddr[net] else -1
    }

    method Create(a: Address, source: int) returns (id: int)
      requires Valid() && a.service.net !in mapAddr
      modifies this
      ensures Inv({id}, {id}) && id == old(nIdCount) && id !in old(mapInfo)
      ensures mapInfo == old(mapInfo)[id := NewInfo(a, source, old(|vRandom|))]
      ensures mapAddr == old(mapAddr)[a.service.net := id]
      ensures vvNew == old(vvNew) && vvTried == old(vvTried) && nLastGood == old(nLastGood)
    {
      Unused(Now(), {}, {});
      CreateKeeps(Now(), {}, {}, NewInfo(a, source, |vRandom|));
      assert {} + {nIdCount} == {nIdCount};
      id := nIdCount;
      nIdCount := nIdCount + 1;
      mapInfo := mapInfo[id := NewInfo(a, source, |vRandom|)];
      mapAddr := mapAddr[a.service.net := id];
      vRandom := vRandom + [id];
    }

    /** Swaps two places of vRandom and the places remembered by their entries. */
    method SwapRandom(p: nat, q: nat, ghost zero: set<int>, ghost limbo: set<int>)
      requires Inv(zero, limbo) && (p != q ==> p < |vRandom| && q < |vRandom|)
      modifies this
      ensures Inv(zero, limbo)
      ensures vRandom == if p == q then old(vRandom) else Swapped(old(vRandom), p, q)
      ensures mapInfo.Keys == old(mapInfo).Keys && OthersStay(old(mapInfo), mapInfo, {})
      ensures mapAddr == old(mapAddr) && vvNew == old(vvNew) && vvTried == old(vvTried) && nNew == old(nNew)
      ensures nTried == old(nTried)
      ensures nIdCount == old(nIdCount) && nLastGood == old(nLastGood)
    {
      if p == q {
        return;
      }
      ghost var t := Now();
      SwapKeeps(t, zero, limbo, p, q);
      var id1, id2 := vRandom[p], vRandom[q];
      StayMoved(mapInfo, id1, id2, q, p);
      mapInfo := WithPos(WithPos(mapInfo, id1, q), id2, p);
      vRandom := vRandom[p := id2][q := id1];
      assert Now() == t.Swap(p, q);
    }

    /** Deletes an entry that is not tried and has no reference. */
    method Delete(id: int, ghost zero: set<int>, ghost limbo: set<int>)
      requires Inv(zero, limbo) && id in mapInfo && !mapInfo[id].inTried && mapInfo[id].refCount == 0 && id !in limbo
      modifies this
      ensures Inv(zero - {id}, limbo)
      ensures mapInfo.Keys == old(mapInfo).Keys - {id} && OthersStay(old(mapInfo), mapInfo, {id})
      ensures mapAddr == old(mapAddr) - {old(mapInfo)[id].service.net}
      ensures vvNew == old(vvNew) && vvTried == old(vvTried) && nTried == old(nTried)
      ensures nIdCount == old(nIdCount) && nLastGood == old(nLastGood)
    {
      assert Now().EntryOk(zero, id);
      ghost var info := mapInfo;
      SwapRandom(mapInfo[id].randomPos, |vRandom| - 1, zero, limbo);
      assert StillThere(info, mapInfo, id) && Now().PosOk(|vRandom| - 1);
      ghost var swapped := mapInfo;
      DropLast(id, zero, limbo);
      StayTwice(info, swapped, mapInfo, {}, {id}, {id});
    }

    method DropLast(id: int, ghost zero: set<int>, ghost limbo: set<int>)
      requires Inv(zero, limbo) && id in mapInfo && !mapInfo[id].inTried && mapInfo[id].refCount == 0 && id !in limbo
      requires mapInfo[id].randomPos == |vRandom| - 1
      modifies this
      ensures Inv(zero - {id}, limbo)
      ensures mapInfo.Keys == old(mapInfo).Keys - {id} && OthersStay(old(mapInfo), mapInfo, {id})
      ensures mapAddr == old(mapAddr) - {old(mapInfo)[id].service.net}
      ensures vvNew == old(vvNew) && vvTried == old(vvTried) && nTried == old(nTried)
      ensures nIdCount == old(nIdCount) && nLastGood == old(nLastGood)
    {
      DropKeeps(Now(), zero, limbo, id);
      StayWithout(mapInfo, id);
      vRandom := vRandom[..|vRandom| - 1];
      mapAddr := mapAddr - {mapInfo[id].service.net};
      mapInfo := mapInfo - {id};
      nNew := nNew - 1;
    }

    /** Takes one reference away from the entry of an occupied slot. */
    method Unlink(s: Slot, ghost zero: set<int>, ghost limbo: set<int>)
      requires Inv(zero, limbo) && s in vvNew
      modifies this
      ensures var id := old(vvNew)[s];
              && id in old(mapInfo) && old(mapInfo)[id].refCount > 0 && !old(mapInfo)[id].inTried
              && mapInfo == WithRef(old(mapInfo), id, old(mapInfo)[id].refCount - 1)
              && Inv(zero + {id}, limbo)
      ensures vvNew == old(vvNew) - {s}
      ensures mapAddr == old(mapAddr) && vRandom == old(vRandom) && vvTried == old(vvTried)
      ensures nNew == old(nNew) && nTried == old(nTried)
      ensures nIdCount == old(nIdCount) && nLastGood == old(nLastGood)
    {
      UnlinkKeeps(Now(), zero, limbo, s);
      var id := vvNew[s];
      mapInfo := WithRef(mapInfo, id, mapInfo[id].refCount - 1);
      vvNew := vvNew - {s};
    }

    /** The entry of the slot loses that reference, and is deleted if it was its last. */
    method ClearNew(s: Slot, ghost zero: set<int>, ghost limbo: set<int>)
      requires Inv(zero, limbo) && forall i :: i in limbo && i in mapInfo ==> mapInfo[i].refCount == 0
      modifies this
      ensures Inv(zero, limbo)
      ensures vvNew == old(vvNew) - {s} && vvTried == old(vvTried) && nTried == old(nTried)
      ensures nIdCount == old(nIdCount) && nLastGood == old(nLastGood)
      ensures mapAddr.Keys <= old(mapAddr).Keys
      ensures s !in old(vvNew) ==> mapInfo == old(mapInfo)
      ensures s in old(vvNew) ==> OthersStay(old(mapInfo), mapInfo, {old(vvNew)[s]})
      ensures s in old(vvNew) ==>
                var id := old(vvNew)[s]; id in old(mapInfo) && (id in mapInfo <==> old(mapInfo)[id].refCount > 1)
    {
      if s in vvNew {
        ghost var before := mapInfo;
        var id := vvNew[s];
        Unlink(s, zero, limbo);
        StayExcept(before, id, mapInfo[id]);
        if mapInfo[id].refCount == 0 {
          ghost var unlinked := mapInfo;
          Delete(id, zero + {id}, limbo);
          StayTwice(before, unlinked, mapInfo, {id}, {id}, {id});
        }
        ZeroKeeps(Now(), if id in mapInfo then zero + {id} else zero + {id} - {id}, limbo, zero);
      }
    }

    /** Empties all slots of the new table that hold id. */
    method LeaveNew(id: int)
      requires Valid() && id in mapInfo && !mapInfo[id].inTried
      modifies this
      ensures id in old(mapInfo) && mapInfo == WithRef(old(mapInfo), id, 0) && Inv({id}, {})
      ensures vvNew.Keys <= old(vvNew).Keys && vvTried == old(vvTried) && nLastGood == old(nLastGood)
    {
      ZeroKeeps(Now(), {}, {}, {id});
      assert WithRef(mapInfo, id, mapInfo[id].refCount) == mapInfo;
      var bucket := 0;
      while bucket < NEW_BUCKET_COUNT
        invariant bucket <= NEW_BUCKET_COUNT && Inv({id}, {})
        invariant id in old(mapInfo) && id in mapInfo && mapInfo == WithRef(old(mapInfo), id, mapInfo[id].refCount)
        invariant forall t :: t in vvNew && vvNew[t] == id ==> t.bucket >= bucket
        invariant vvNew.Keys <= old(vvNew).Keys && vvTried == old(vvTried) && nLastGood == old(nLastGood)
      {
        ghost var n := mapInfo[id].refCount;
        LeaveBucket(id, bucket);
        RefTwice(old(mapInfo), id, n, mapInfo[id].refCount);
        bucket := bucket + 1;
      }
      NoneLeft(Now(), id);
    }

    /** No reference is left once the slots of all buckets have been looked at. */
    lemma NoneLeft(t: Tables, id: int)
      requires t.Ok({id}, {}) && id in t.info
      requires forall s :: s in t.vvNew && t.vvNew[s] == id ==> s.bucket >= NEW_BUCKET_COUNT
      ensures t.info[id].refCount == 0
    {
      assert t.EntryOk({id}, id);
      forall s | s in t.vvNew
        ensures t.vvNew[s] != id
      {
        assert t.NewSlotOk(s);
      }
      assert Slots(t.vvNew, id) == {};
    }

    method LeaveBucket(id: int, bucket: nat)
      requires Inv({id}, {}) && id in mapInfo && bucket < NEW_BUCKET_COUNT
      requires forall t :: t in vvNew && vvNew[t] == id ==> t.bucket >= bucket
      modifies this
      ensures Inv({id}, {}) && id in old(mapInfo) && id in mapInfo
      ensures mapInfo == WithRef(old(mapInfo), id, mapInfo[id].refCount)
      ensures forall t :: t in vvNew && vvNew[t] == id ==> t.bucket >= bucket + 1
      ensures vvNew.Keys <= old(vvNew).Keys && vvTried == old(vvTried) && nLastGood == old(nLastGood)
    {
      var s := NewSlot(h, bucket, mapInfo[id].service);
      forall t | t in vvNew && vvNew[t] == id && t != s
        ensures t.bucket >= bucket + 1
      {
        assert Now().NewSlotOk(t);
      }
      if s in vvNew && vvNew[s] == id {
        Unlink(s, {id}, {});
        assert {id} + {id} == {id};
      } else {
        assert WithRef(mapInfo, id, mapInfo[id].refCount) == mapInfo;
      }
    }

    /** The tried entry of the slot moves back to the new table, where it deletes whatever is in its way. */
    method Evict(s: Slot, id: int)
      requires Inv({id}, {id}) && s in vvTried && id in mapInfo && mapInfo[id].refCount == 0 && !mapInfo[id].inTried
      modifies this
      ensures Inv({id}, {id}) && vvTried == old(vvTried) - {s} && nLastGood == old(nLastGood)
      ensures id in mapInfo && Alike(mapInfo[id], old(mapInfo)[id])
      ensures var out := old(vvTried)[s]; out in mapInfo && !mapInfo[out].inTried && mapInfo[out].refCount == 1
    {
      assert Now().TriedSlotOk(s);
      var out := vvTried[s];
      TakeOut(s, id);
      var slot := NewSlot(h, GetNewBucket(h, mapInfo[out].service, mapInfo[out].source), mapInfo[out].service);
      ghost var before := mapInfo;
      NoSlots(Now(), {id, out}, {id, out}, id);
      NoSlots(Now(), {id, out}, {id, out}, out);
      ClearNew(slot, {id, out}, {id, out});
      assert slot !in vvNew && StillThere(before, mapInfo, id) && StillThere(before, mapInfo, out);
      PutBack(out, slot, id);
    }

    method TakeOut(s: Slot, id: int)
      requires Inv({id}, {id}) && s in vvTried && id in mapInfo && !mapInfo[id].inTried
      modifies this
      ensures var out := old(vvTried)[s];
              out in old(mapInfo) && out != id && mapInfo == WithTried(old(mapInfo), out, false) &&
                mapInfo[out].refCount == 0 && Inv({id, out}, {id, out})
      ensures vvTried == old(vvTried) - {s} && vvNew == old(vvNew) && nLastGood == old(nLastGood)
    {
      DemoteKeeps(Now(), {id}, {id}, s);
      assert Now().TriedSlotOk(s);
      var out := vvTried[s];
      assert {id} + {out} == {id, out};
      mapInfo := WithTried(mapInfo, out, false);
      vvTried := vvTried - {s};
      nTried := nTried - 1;
    }

    method PutBack(out: int, slot: Slot, id: int)
      requires Inv({id, out}, {id, out}) && out != id && out in mapInfo && !mapInfo[out].inTried
      requires mapInfo[out].refCount == 0
      requires slot == NewSlot(h, GetNewBucket(h, mapInfo[out].service, mapInfo[out].source), mapInfo[out].service)
      requires slot !in vvNew
      modifies this
      ensures out in old(mapInfo) && mapInfo == WithRef(old(mapInfo), out, 1) && Inv({id}, {id})
      ensures vvNew == old(vvNew)[slot := out] && vvTried == old(vvTried) && nLastGood == old(nLastGood)
    {
      ghost var t := Now();
      LinkKeeps(t, {id, out}, {id, out}, out, slot.bucket);
      mapInfo := WithRef(mapInfo, out, 1);
      vvNew := vvNew[slot := out];
      assert Now() == t.Linked(out, slot.bucket);
      assert {id, out} - {out} == {id};
      CountIn(out, {id}, {id, out});
    }

    /** Moves an entry from the new table to the tried table; the entry that was in its slot there becomes new again. */
    method MakeTried(id: int)
      requires Valid() && id in mapInfo && !mapInfo[id].inTried && mapInfo[id].lastSuccess > 0
      modifies this
      ensures Valid() && nLastGood == old(nLastGood)
      ensures id in mapInfo && Alike(mapInfo[id], old(mapInfo)[id].(refCount := 0, inTried := true))
      ensures vvTried == old(vvTried)[TriedSlot(h, old(mapInfo)[id].service) := id]
      ensures var s := TriedSlot(h, old(mapInfo)[id].service);
              s in old(vvTried) ==>
                var out := old(vvTried)[s]; out in mapInfo && !mapInfo[out].inTried && mapInfo[out].refCount == 1
    {
      LeaveNew(id);
      Uncount(id);
      Settle(id);
    }

    method Uncount(id: int)
      requires Inv({id}, {}) && id in mapInfo && !mapInfo[id].inTried
      modifies this
      ensures Inv({id}, {id}) && mapInfo == old(mapInfo) && vvTried == old(vvTried) && nLastGood == old(nLastGood)
    {
      UncountKeeps(Now(), {id}, {}, id);
      assert {} + {id} == {id};
      nNew := nNew - 1;
    }

    /** Makes room in the tried table and enters id. */
    method Settle(id: int)
      requires Inv({id}, {id}) && id in mapInfo && !mapInfo[id].inTried && mapInfo[id].refCount == 0
      requires mapInfo[id].lastSuccess > 0
      modifies this
      ensures Valid() && nLastGood == old(nLastGood)
      ensures id in mapInfo && Alike(mapInfo[id], old(mapInfo)[id].(inTried := true))
      ensures vvTried == old(vvTried)[TriedSlot(h, old(mapInfo)[id].service) := id]
      ensures var s := TriedSlot(h, old(mapInfo)[id].service);
              s in old(vvTried) ==>
                var out := old(vvTried)[s]; out in mapInfo && !mapInfo[out].inTried && mapInfo[out].refCount == 1
    {
      var s := TriedSlot(h, mapInfo[id].service);
      if s in vvTried {
        assert Now().TriedSlotOk(s);
        Evict(s, id);
      }
      EnterTried(id, s);
    }

    method EnterTried(id: int, s: Slot)
      requires Inv({id}, {id}) && id in mapInfo && mapInfo[id].refCount == 0 && mapInfo[id].lastSuccess > 0
      requires s == TriedSlot(h, mapInfo[id].service) && s !in vvTried
      modifies this
      ensures Valid() && id in old(mapInfo) && mapInfo == WithTried(old(mapInfo), id, true)
      ensures vvTried == old(vvTried)[s := id]
      ensures vvNew == old(vvNew) && nLastGood == old(nLastGood)
    {
      PromoteKeeps(Now(), {id}, {id}, id);
      assert {id} - {id} == {};
      vvTried := vvTried[s := id];
      nTried := nTried + 1;
      mapInfo := WithTried(mapInfo, id, true);
    }

    /** Looks through the new buckets, from a random one on; an entry that is not tried is always found. */
    method FindBucket(id: int) returns (bucket: int)
      requires Valid() && id in mapInfo && !mapInfo[id].inTried
      ensures 0 <= bucket < NEW_BUCKET_COUNT
      ensures var s := NewSlot(h, bucket, mapInfo[id].service); s in vvNew && vvNew[s] == id
    {
      var rnd := RandomInt(NEW_BUCKET_COUNT);
      var n := 0;
      bucket := -1;
      while n < NEW_BUCKET_COUNT && bucket == -1
        invariant 0 <= n <= NEW_BUCKET_COUNT && -1 <= bucket < NEW_BUCKET_COUNT
        invariant forall k: nat {:trigger Missing(id, k, rnd)} :: k < n && bucket == -1 ==> Missing(id, k, rnd)
        invariant bucket != -1 ==> var s := NewSlot(h, bucket, mapInfo[id].service); s in vvNew && vvNew[s] == id
        decreases NEW_BUCKET_COUNT - n, bucket == -1
      {
        var b := (n + rnd) % NEW_BUCKET_COUNT;
        var s := NewSlot(h, b, mapInfo[id].service);
        if s in vvNew && vvNew[s] == id {
          bucket := b;
        }
        n := n + 1;
      }
      if bucket == -1 {
        SomeBucket(id, rnd);
        assert false;
      }
    }

    ghost predicate Missing(id: int, k: nat, rnd: nat)
      reads this
      requires id in mapInfo
    {
      var s := NewSlot(h, (k + rnd) % NEW_BUCKET_COUNT, mapInfo[id].service);
      s !in vvNew || vvNew[s] != id
    }

    lemma SomeBucket(id: int, rnd: nat)
      requires Valid() && id in mapInfo && !mapInfo[id].inTried && rnd < NEW_BUCKET_COUNT
      ensures exists k: nat :: k < NEW_BUCKET_COUNT && !Missing(id, k, rnd)
    {
      assert Now().EntryOk({}, id);
      assert Slots(vvNew, id) != {};
      var s: Slot :| s in Slots(vvNew, id);
      assert Now().NewSlotOk(s);
      var k := if s.bucket >= rnd then s.bucket - rnd else s.bucket + NEW_BUCKET_COUNT - rnd;
      assert (k + rnd) % NEW_BUCKET_COUNT == s.bucket;
      assert !Missing(id, k, rnd);
    }

    /** Replaces what is remembered about an entry. */
    method Touch(id: int, x: Info)
      requires Valid() && id in mapInfo && SamePlace(mapInfo[id], x)
      requires x.lastTry >= 0 && x.lastSuccess >= 0 && (x.inTried ==> x.lastSuccess > 0)
      modifies this
      ensures Valid() && mapInfo == old(mapInfo)[id := x]
      ensures mapAddr == old(mapAddr) && vRandom == old(vRandom) && vvNew == old(vvNew) && vvTried == old(vvTried)
      ensures nNew == old(nNew) && nTried == old(nTried) && nIdCount == old(nIdCount) && nLastGood == old(nLastGood)
    {
      TouchKeeps(Now(), {}, {}, id, x);
      mapInfo := mapInfo[id := x];
    }

    /** The entry is updated and, if it is not there yet, moved to the tried table. */
    method GoodEntry(id: int, time: int)
      requires Valid() && id in mapInfo && time > 0
      modifies this
      ensures Valid() && nLastGood == old(nLastGood) && id in mapInfo
      ensures Alike(mapInfo[id],
                    old(mapInfo)[id].(lastSuccess := time, lastTry := time, attempts := 0, refCount := 0,
                                      inTried := true))
    {
      assert Now().EntryOk({}, id);
      var info := mapInfo[id];
      Touch(id, info.(lastSuccess := time, lastTry := time, attempts := 0));
      if info.inTried {
        return;
      }
      var bucket := FindBucket(id);
      MakeTried(id);
    }

    /** An address that is known with this port ends up in the tried table. */
    method Good(service: Service, time: int)
      requires Valid() && time > 0
      modifies this
      ensures Valid() && nLastGood == time
      ensures var id := old(Find(service.net));
              if id in old(mapInfo) && old(mapInfo)[id].service == service then
                id in mapInfo && Alike(mapInfo[id],
                                       old(mapInfo)[id].(lastSuccess := time, lastTry := time, attempts := 0,
                                                         refCount := 0, inTried := true))
              else
                mapInfo == old(mapInfo) && vvNew == old(vvNew) && vvTried == old(vvTried)
    {
      nLastGood := time;
      var id := Find(service.net);
      if id !in mapInfo || mapInfo[id].service != service {
        return;
      }
      GoodEntry(id, time);
    }

    /** An attempt to connect is remembered; a failure counts once between two successes. */
    method Attempt(service: Service, countFailure: bool, time: int)
      requires Valid() && time >= 0
      modifies this
      ensures Valid() && nLastGood == old(nLastGood) && vvNew == old(vvNew) && vvTried == old(vvTried)
      ensures var id := old(Find(service.net));
              if id in old(mapInfo) && old(mapInfo)[id].service == service then
                var x := old(mapInfo)[id];
                mapInfo == old(mapInfo)[id := if countFailure && x.lastCount < nLastGood
                                              then x.(lastTry := time, lastCount := time, attempts := x.attempts + 1)
                                              else x.(lastTry := time)]
              else
                mapInfo == old(mapInfo)
    {
      var id := Find(service.net);
      if id !in mapInfo || mapInfo[id].service != service {
        return;
      }
      assert Now().EntryOk({}, id);
      var x := mapInfo[id].(lastTry := time);
      if countFailure && x.lastCount < nLastGood {
        x := x.(lastCount := time, attempts := x.attempts + 1);
      }
      Touch(id, x);
    }

    /** A connected peer's time is moved on at most every 20 minutes. */
    method Connected(service: Service, time: int)
      requires Valid()
      modifies this
      ensures Valid() && nLastGood == old(nLastGood) && vvNew == old(vvNew) && vvTried == old(vvTried)
      ensures var id := old(Find(service.net));
              if id in old(mapInfo) && old(mapInfo)[id].service == service &&
                time - old(mapInfo)[id].time > 20 * 60 then
                mapInfo == old(mapInfo)[id := old(mapInfo)[id].(time := time)]
              else
                mapInfo == old(mapInfo)
    {
      var id := Find(service.net);
      if id !in mapInfo || mapInfo[id].service != service {
        return;
      }
      assert Now().EntryOk({}, id);
      if time - mapInfo[id].time > 20 * 60 {
        Touch(id, mapInfo[id].(time := time));
      }
    }

    /** Enters an entry into an empty slot of the new table. */
    method Link(id: int, bucket: nat)
      requires Inv({id}, {}) && id in mapInfo && !mapInfo[id].inTried && mapInfo[id].refCount < NEW_BUCKETS_PER_ADDRESS
      requires bucket < NEW_BUCKET_COUNT && NewSlot(h, bucket, mapInfo[id].service) !in vvNew
      modifies this
      ensures Valid() && id in old(mapInfo) && mapInfo == WithRef(old(mapInfo), id, old(mapInfo)[id].refCount + 1)
      ensures vvNew == old(vvNew)[NewSlot(h, bucket, old(mapInfo)[id].service) := id]
      ensures vvTried == old(vvTried) && nLastGood == old(nLastGood)
      ensures mapAddr == old(mapAddr)
    {
      LinkKeeps(Now(), {id}, {}, id, bucket);
      assert {id} - {id} == {};
      vvNew := vvNew[NewSlot(h, bucket, mapInfo[id].service) := id];
      mapInfo := WithRef(mapInfo, id, mapInfo[id].refCount + 1);
    }

    function InsertSlot(service: Service, source: int): Slot {
      NewSlot(h, GetNewBucket(h, service, source), service)
    }

    /** Who has the slot. */
    ghost function Holder(s: Slot): set<int>
      reads this
    {
      if s in vvNew then {vvNew[s]} else {}
    }

    /** Gives the entry a slot in the new bucket for this source, if it has none there and the slot is free or can be
        freed. */
    method Insert(id: int, source: int, now: int)
      requires Inv({id}, {}) && id in mapInfo && !mapInfo[id].inTried && mapInfo[id].refCount < NEW_BUCKETS_PER_ADDRESS
      modifies this
      ensures Valid() && vvTried == old(vvTried) && nLastGood == old(nLastGood) && mapAddr.Keys <= old(mapAddr).Keys
      ensures OthersStay(old(mapInfo), mapInfo, {id} + old(Holder(InsertSlot(mapInfo[id].service, source))))
      ensures var x := old(mapInfo)[id];
              var bucket := GetNewBucket(h, x.service, source);
              var s := NewSlot(h, bucket, x.service);
              if s in old(vvNew) && old(vvNew)[s] == id then mapInfo == old(mapInfo) && vvNew == old(vvNew)
              else if Free(old(mapInfo), old(vvNew), s, id, now) then
                && id in mapInfo && Alike(mapInfo[id], x.(refCount := x.refCount + 1))
                && vvNew == old(vvNew)[s := id]
              else
                && vvNew == old(vvNew)
                && (id in mapInfo <==> x.refCount > 0)
                && (x.refCount > 0 ==> mapInfo == old(mapInfo) && mapAddr == old(mapAddr))
                && (x.refCount == 0 ==>
                      && mapInfo.Keys == old(mapInfo).Keys - {id} && OthersStay(old(mapInfo), mapInfo, {id})
                      && mapAddr == old(mapAddr) - {x.service.net})
    {
      var bucket := GetNewBucket(h, mapInfo[id].service, source);
      var s := NewSlot(h, bucket, mapInfo[id].service);
      if s in vvNew {
        assert Now().NewSlotOk(s);
      }
      if s in vvNew && vvNew[s] == id {
        Held(s, id);
      } else if Free(mapInfo, vvNew, s, id, now) {
        Replace(id, bucket, s);
      } else if mapInfo[id].refCount == 0 {
        Delete(id, {id}, {});
        assert {id} - {id} == {};
      } else {
        ZeroKeeps(Now(), {id}, {}, {});
      }
    }

    /** The entry takes over the slot. */
    method Replace(id: int, bucket: nat, s: Slot)
      requires Inv({id}, {}) && id in mapInfo && !mapInfo[id].inTried && mapInfo[id].refCount < NEW_BUCKETS_PER_ADDRESS
      requires bucket < NEW_BUCKET_COUNT && s == NewSlot(h, bucket, mapInfo[id].service)
      requires s in vvNew ==> vvNew[s] != id
      modifies this
      ensures Valid() && vvTried == old(vvTried) && nLastGood == old(nLastGood) && mapAddr.Keys <= old(mapAddr).Keys
      ensures OthersStay(old(mapInfo), mapInfo, {id} + old(Holder(s)))
      ensures id in mapInfo
      ensures Alike(mapInfo[id], old(mapInfo)[id].(refCount := old(mapInfo)[id].refCount + 1))
      ensures vvNew == old(vvNew)[s := id]
    {
      ghost var before := mapInfo;
      Refilled(vvNew, s, id);
      ClearNew(s, {id}, {});
      assert StillThere(before, mapInfo, id);
      AlikeOneMore(mapInfo[id], before[id]);
      ghost var cleared := mapInfo;
      Link(id, bucket);
      StayExcept(cleared, id, mapInfo[id]);
      StayTwice(before, cleared, mapInfo, old(Holder(s)), {id}, {id} + old(Holder(s)));
    }

    lemma Held(s: Slot, id: int)
      requires Inv({id}, {}) && s in vvNew && vvNew[s] == id && id in mapInfo
      ensures Valid()
    {
      assert s in Slots(vvNew, id);
      assert Now().EntryOk({id}, id);
      ZeroKeeps(Now(), {id}, {}, {});
    }

    /** How an announcement changes what is known of an entry. */
    function Refreshed(x: Info, a: Address, penalty: int, now: int): Info {
      var interval := if now - a.time < 24 * 60 * 60 then 60 * 60 else 24 * 60 * 60;
      var time := if a.time != 0 && (x.time == 0 || x.time < a.time - interval - penalty)
                  then Max(0, a.time - penalty) else x.time;
      x.(time := time, services := x.services + a.services)
    }

    /** Whether an announcement of a known address may give it one more reference. */
    method MayRefer(x: Info, a: Address) returns (yes: bool)
      ensures yes ==>
                a.time != 0 && (x.time == 0 || a.time > x.time) && !x.inTried && x.refCount != NEW_BUCKETS_PER_ADDRESS
    {
      if a.time == 0 || (x.time != 0 && a.time <= x.time) || x.inTried || x.refCount == NEW_BUCKETS_PER_ADDRESS {
        return false;
      }
      var factor, n := 1, 0;
      while n < x.refCount
        invariant factor >= 1
      {
        factor, n := factor * 2, n + 1;
      }
      if factor > 1 {
        var rnd := RandomInt(factor);
        return rnd == 0;
      }
      return true;
    }

    /** A known address is announced again. */
    method AddKnown(id: int, a: Address, source: int, penalty: int, now: int)
      requires Valid() && id in mapInfo
      modifies this
      ensures Valid() && vvTried == old(vvTried) && nLastGood == old(nLastGood)
      ensures id in mapInfo
      ensures OthersStay(old(mapInfo), mapInfo, {id} + old(Holder(InsertSlot(mapInfo[id].service, source))))
      ensures var x := Refreshed(old(mapInfo)[id], a, penalty, now);
              mapInfo[id].refCount >= x.refCount && Alike(mapInfo[id], x.(refCount := mapInfo[id].refCount))
    {
      assert Now().EntryOk({}, id);
      ghost var before := mapInfo;
      Touch(id, Refreshed(mapInfo[id], a, penalty, now));
      ghost var touched := mapInfo;
      StayExcept(before, id, mapInfo[id]);
      ghost var but := {id} + Holder(InsertSlot(mapInfo[id].service, source));
      StayTwice(before, touched, mapInfo, {id}, {}, but);
      var more := MayRefer(mapInfo[id], a);
      if more {
        assert Now().EntryOk({}, id);
        ZeroKeeps(Now(), {}, {}, {id});
        Insert(id, source, now);
        StayTwice(before, touched, mapInfo, {id}, but, but);
      }
    }

    /** An unknown address gets an entry, unless an entry that is better is in its way: then nothing changes. */
    method AddUnknown(a: Address, source: int, penalty: int, now: int)
      requires Valid() && a.service.net !in mapAddr
      modifies this
      ensures Valid() && vvTried == old(vvTried) && nLastGood == old(nLastGood)
      ensures mapAddr.Keys <= old(mapAddr).Keys + {a.service.net}
      ensures OthersStay(old(mapInfo), mapInfo, old(Holder(InsertSlot(a.service, source))))
      ensures var s := InsertSlot(a.service, source);
              if Available(old(mapInfo), old(vvNew), s, now) then
                KeptAt(mapInfo, mapAddr, vvNew, s, Kept(a, source, penalty))
              else Untouched(old(mapInfo), old(mapAddr), old(vvNew), mapInfo, mapAddr, vvNew)
    {
      ghost var before := mapInfo;
      var s := InsertSlot(a.service, source);
      if s in vvNew {
        assert Now().NewSlotOk(s);
      }
      var id := Enter(a, source, penalty);
      FreeForNew(before, vvNew, s, id, mapInfo[id], now);
      ghost var entered := mapInfo;
      StayExcept(before, id, mapInfo[id]);
      Place(id, a, source, penalty, now);
      StayTwice(before, entered, mapInfo, {id}, {id} + old(Holder(s)), {id} + old(Holder(s)));
      StayButNew(before, mapInfo, id, old(Holder(s)));
      if !Free(entered, old(vvNew), s, id, now) {
        GoneAgain(before, entered, mapInfo, id, old(mapAddr), mapAddr, a.service.net);
      }
    }

    /** Finds the new entry its slot, or deletes it again. */
    method Place(id: int, a: Address, source: int, penalty: int, now: int)
      requires Inv({id}, {}) && id in mapInfo && !mapInfo[id].inTried
      requires Alike(mapInfo[id].(refCount := 1), Kept(a, source, penalty)) && mapInfo[id].refCount == 0
      modifies this
      ensures Valid() && vvTried == old(vvTried) && nLastGood == old(nLastGood) && mapAddr.Keys <= old(mapAddr).Keys
      ensures OthersStay(old(mapInfo), mapInfo, {id} + old(Holder(InsertSlot(a.service, source))))
      ensures var s := InsertSlot(a.service, source);
              if Free(old(mapInfo), old(vvNew), s, id, now) then
                KeptAt(mapInfo, mapAddr, vvNew, s, Kept(a, source, penalty))
              else
                && vvNew == old(vvNew) && mapAddr == old(mapAddr) - {a.service.net}
                && mapInfo.Keys == old(mapInfo).Keys - {id} && OthersStay(old(mapInfo), mapInfo, {id})
    {
      var s := InsertSlot(a.service, source);
      NoSlots(Now(), {id}, {}, id);
      assert s in vvNew ==> vvNew[s] != id;
      Insert(id, source, now);
      if id in mapInfo {
        assert Now().EntryOk({}, id);
      }
    }

    lemma GoneAgain(before: map<int, Info>, entered: map<int, Info>, after: map<int, Info>, id: int,
                    addr: map<int, int>, addr': map<int, int>, net: int)
      requires id !in before && OthersStay(before, entered, {id}) && entered.Keys == before.Keys + {id}
      requires OthersStay(entered, after, {id}) && after.Keys == entered.Keys - {id}
      requires net !in addr && addr' == addr[net := id] - {net}
      ensures addr' == addr && after.Keys == before.Keys && OthersStay(before, after, {})
    {
      StayTwice(before, entered, after, {id}, {id}, {id});
      StayButNew(before, after, id, {});
    }

    /** Creates the entry and counts it. */
    method Enter(a: Address, source: int, penalty: int) returns (id: int)
      requires Valid() && a.service.net !in mapAddr
      modifies this
      ensures Inv({id}, {}) && id !in old(mapInfo)
      ensures mapInfo == old(mapInfo)[id := NewInfo(a, source, old(|vRandom|)).(time := Max(0, a.time - penalty))]
      ensures mapAddr == old(mapAddr)[a.service.net := id]
      ensures vvNew == old(vvNew) && vvTried == old(vvTried) && nLastGood == old(nLastGood)
    {
      id := Create(a, source);
      ghost var t := Now();
      var x := mapInfo[id].(time := Max(0, mapInfo[id].time - penalty));
      TouchKeeps(t, {id}, {id}, id, x);
      PutTwice(old(mapInfo), id, mapInfo[id], x);
      mapInfo := mapInfo[id := x];
      assert Now() == t.WithInfo(mapInfo);
      CountIn(id, {id}, {id});
      assert {id} - {id} == {};
    }

    method CountIn(id: int, ghost zero: set<int>, ghost limbo: set<int>)
      requires Inv(zero, limbo) && id in limbo
      modifies this
      ensures Inv(zero, limbo - {id}) && mapInfo == old(mapInfo) && mapAddr == old(mapAddr)
      ensures vvNew == old(vvNew) && vvTried == old(vvTried) && nLastGood == old(nLastGood)
    {
      CountKeeps(Now(), zero, limbo, id);
      nNew := nNew + 1;
    }

    /** Reports whether the address was routable and unknown. It is known afterwards if and only if the
        slot was available; otherwise the report is wrong, and nothing has changed. */
    method Add(a: Address, source: int, penalty: int, now: int, routable: bool) returns (isNew: bool)
      requires Valid()
      modifies this
      ensures Valid() && vvTried == old(vvTried) && nLastGood == old(nLastGood)
      ensures isNew <==> routable && a.service.net !in old(mapAddr)
      ensures !routable ==> mapInfo == old(mapInfo) && vvNew == old(vvNew)
      ensures var id := old(Find(a.service.net));
              routable && id != -1 ==>
                && id in old(mapInfo) && id in mapInfo
                && OthersStay(old(mapInfo), mapInfo, {id} + old(Holder(InsertSlot(mapInfo[id].service, source))))
                && var x := Refreshed(old(mapInfo)[id], a, penalty, now);
                   mapInfo[id].refCount >= x.refCount && Alike(mapInfo[id], x.(refCount := mapInfo[id].refCount))
      ensures isNew ==> OthersStay(old(mapInfo), mapInfo, old(Holder(InsertSlot(a.service, source))))
      ensures isNew ==> mapAddr.Keys <= old(mapAddr).Keys + {a.service.net}
      ensures isNew ==> var s := InsertSlot(a.service, source);
                        && (a.service.net in mapAddr <==> Available(old(mapInfo), old(vvNew), s, now))
                        && if Available(old(mapInfo), old(vvNew), s, now) then
                             KeptAt(mapInfo, mapAddr, vvNew, s, Kept(a, source, penalty))
                           else
                             Untouched(old(mapInfo), old(mapAddr), old(vvNew), mapInfo, mapAddr, vvNew)
    {
      if !routable {
        return false;
      }
      FindKnown(a.service.net);
      var id := Find(a.service.net);
      if id != -1 {
        AddKnown(id, a, source, penalty, now);
        return false;
      }
      AddUnknown(a, source, penalty, now);
      return true;
    }

    lemma FindKnown(net: int)
      requires Valid()
      ensures net in mapAddr <==> Find(net) != -1
    {
      if net in mapAddr {
        assert Now().NetOk(net);
        assert Now().EntryOk({}, mapAddr[net]);
      }
    }

    /** What the consistency check asks of one entry, and of the slots of both tables. */
    lemma Check(id: int)
      requires Valid() && id in mapInfo
      ensures var x := mapInfo[id];
              && (x.inTried ==>
                    x.lastSuccess != 0 && x.refCount == 0 && Slots(vvTried, id) == {TriedSlot(h, x.service)})
              && (!x.inTried ==> 1 <= x.refCount <= NEW_BUCKETS_PER_ADDRESS && Slots(vvTried, id) == {})
              && |Slots(vvNew, id)| == x.refCount
              && (forall s :: s in Slots(vvNew, id) ==>
                  s.bucket < NEW_BUCKET_COUNT && s.pos == GetBucketPosition(h, true, s.bucket, x.service))
              && x.service.net in mapAddr && mapAddr[x.service.net] == id
              && x.randomPos < |vRandom| && vRandom[x.randomPos] == id
              && x.lastTry >= 0 && x.lastSuccess >= 0
    {
      assert Now().EntryOk({}, id);
      forall s | s in Slots(vvTried, id)
        ensures mapInfo[id].inTried && s == TriedSlot(h, mapInfo[id].service)
      {
        assert Now().TriedSlotOk(s);
      }
      forall s | s in Slots(vvNew, id)
        ensures s.bucket < NEW_BUCKET_COUNT && s.pos == GetBucketPosition(h, true, s.bucket, mapInfo[id].service)
      {
        assert Now().NewSlotOk(s);
      }
    }

    /** What the consistency check asks of the counters and of the tables as a whole. */
    lemma CheckCounts()
      requires Valid()
      ensures |vRandom| == nTried + nNew && nTried == |Tried(mapInfo)| && nNew == |Untried(mapInfo)|
      ensures mapAddr.Values == mapInfo.Keys && vvTried.Values == Tried(mapInfo) && vvNew.Values == Untried(mapInfo)
    {
      NetsMatch();
      TriedMatch();
      NewMatch();
      RandomSize();
      assert Untried(mapInfo) - {} == Untried(mapInfo);
      assert mapInfo.Keys == Tried(mapInfo) + Untried(mapInfo);
    }

    lemma NetsMatch()
      requires Valid()
      ensures mapAddr.Values == mapInfo.Keys
    {
      forall i | i in mapInfo
        ensures i in mapAddr.Values
      {
        assert Now().EntryOk({}, i);
      }
      forall n | n in mapAddr
        ensures mapAddr[n] in mapInfo
      {
        assert Now().NetOk(n);
      }
    }

    lemma TriedMatch()
      requires Valid()
      ensures vvTried.Values == Tried(mapInfo)
    {
      forall i | i in Tried(mapInfo)
        ensures i in vvTried.Values
      {
        assert Now().EntryOk({}, i);
      }
      forall s | s in vvTried
        ensures vvTried[s] in Tried(mapInfo)
      {
        assert Now().TriedSlotOk(s);
      }
    }

    lemma NewMatch()
      requires Valid()
      ensures vvNew.Values == Untried(mapInfo)
    {
      forall i | i in Untried(mapInfo)
        ensures i in vvNew.Values
      {
        assert Now().EntryOk({}, i);
        assert Slots(vvNew, i) != {};
        var s: Slot :| s in Slots(vvNew, i);
      }
      forall s | s in vvNew
        ensures vvNew[s] in Untried(mapInfo)
      {
        assert Now().NewSlotOk(s);
      }
    }

    lemma RandomSize()
      requires Valid()
      ensures |vRandom| == |mapInfo.Keys|
    {
      forall i, j | 0 <= i < j < |vRandom|
        ensures vRandom[i] != vRandom[j]
      {
        assert Now().PosOk(i) && Now().PosOk(j);
      }
      forall i | i in mapInfo
        ensures i in vRandom
      {
        assert Now().EntryOk({}, i);
      }
      forall k | 0 <= k < |vRandom|
        ensures vRandom[k] in mapInfo
      {
        assert Now().PosOk(k);
      }
      EnumerationSize(vRandom, mapInfo.Keys);
    }

    /** Some addresses of good quality, all different; at most 23 percent of them and at most 2500. */
    method GetAddr(now: int) returns (list: seq<Address>)
      requires Valid()
      modifies this
      ensures Valid() && vvNew == old(vvNew) && vvTried == old(vvTried) && mapAddr == old(mapAddr)
      ensures nLastGood == old(nLastGood)
      ensures mapInfo.Keys == old(mapInfo).Keys && OthersStay(old(mapInfo), mapInfo, {})
      ensures |list| <= GETADDR_MAX && 100 * |list| <= GETADDR_MAX_PCT * |vRandom|
      ensures forall a :: a in list ==> Offered(mapInfo, mapAddr, now, a)
      ensures forall i, j :: 0 <= i < j < |list| ==> list[i].service.net != list[j].service.net
    {
      var nodes := GETADDR_MAX_PCT * |vRandom| / 100;
      if nodes > GETADDR_MAX {
        nodes := GETADDR_MAX;
      }
      list := [];
      ghost var at: seq<nat> := [];
      var n := 0;
      ghost var size := |vRandom|;
      while n < |vRandom| && |list| < nodes
        invariant 0 <= n <= |vRandom| == size && |list| <= nodes && Valid()
        invariant vvNew == old(vvNew) && vvTried == old(vvTried) && mapAddr == old(mapAddr)
        invariant nLastGood == old(nLastGood)
        invariant mapInfo.Keys == old(mapInfo).Keys && OthersStay(old(mapInfo), mapInfo, {})
        invariant Gathered(mapInfo, vRandom, now, n, at, list)
        decreases |vRandom| - n
      {
        list, at := GatherNext(now, n, at, list);
        n := n + 1;
      }
      GatheredMeans(now, n, at, list);
    }

    method GatherNext(now: int, n: nat, ghost at: seq<nat>, list: seq<Address>)
      returns (longer: seq<Address>, ghost at': seq<nat>)
      requires Valid() && n < |vRandom| && Gathered(mapInfo, vRandom, now, n, at, list)
      modifies this
      ensures Valid() && |vRandom| == old(|vRandom|)
      ensures vvNew == old(vvNew) && vvTried == old(vvTried) && mapAddr == old(mapAddr) && nLastGood == old(nLastGood)
      ensures forall m :: mapInfo.Keys == old(mapInfo).Keys &&
                (OthersStay(m, old(mapInfo), {}) ==> OthersStay(m, mapInfo, {}))
      ensures Gathered(mapInfo, vRandom, now, n + 1, at', longer) && |longer| <= |list| + 1
    {
      var r := RandomInt(|vRandom| - n);
      ghost var before, random := mapInfo, vRandom;
      SwapRandom(n, n + r, {}, {});
      GatheredStays(before, mapInfo, random, vRandom, now, n, at, list);
      forall m | OthersStay(m, before, {})
        ensures OthersStay(m, mapInfo, {})
      {
        StayTwice(m, before, mapInfo, {}, {}, {});
      }
      assert Now().PosOk(n);
      var x := mapInfo[vRandom[n]];
      longer, at' := list, at;
      if !IsTerrible(x, now) {
        longer, at' := list + [Address(x.service, x.time, x.services)], at + [n];
      }
    }

    lemma GatheredMeans(now: int, n: nat, at: seq<nat>, list: seq<Address>)
      requires Valid() && n <= |vRandom| && Gathered(mapInfo, vRandom, now, n, at, list)
      ensures forall a :: a in list ==> Offered(mapInfo, mapAddr, now, a)
      ensures forall i, j :: 0 <= i < j < |list| ==> list[i].service.net != list[j].service.net
    {
      forall i | 0 <= i < |list|
        ensures Offered(mapInfo, mapAddr, now, list[i]) && list[i].service.net in mapAddr
        ensures mapAddr[list[i].service.net] == vRandom[at[i]]
        ensures mapInfo[vRandom[at[i]]].randomPos == at[i]
      {
        assert Now().PosOk(at[i]);
        assert Now().EntryOk({}, vRandom[at[i]]);
      }
    }
  }

  /** a is what is known of an entry that is not terrible. */
  ghost predicate Offered(info: map<int, Info>, addr: map<int, int>, now: int, a: Address) {
    && a.service.net in addr && addr[a.service.net] in info
    && var x := info[addr[a.service.net]];
      a == Address(x.service, x.time, x.services) && !IsTerrible(x, now)
  }

  /** The list was taken from the places at of vRandom, one after the other, all below n. */
  ghost predicate Gathered(info: map<int, Info>, random: seq<int>, now: int, n: nat, at: seq<nat>, list: seq<Address>) {
    && n <= |random| && |at| == |list|
    && (forall i :: 0 <= i < |at| ==> at[i] < n)
    && (forall i, j :: 0 <= i < j < |at| ==> at[i] < at[j])
    && (forall i :: 0 <= i < |list| ==>
          random[at[i]] in info &&
            list[i] == Address(info[random[at[i]]].service, info[random[at[i]]].time, info[random[at[i]]].services) &&
          !IsTerrible(info[random[at[i]]], now))
  }

  /** Changing vRandom from n on leaves the list as it was. */
  lemma GatheredStays(before: map<int, Info>, after: map<int, Info>, random: seq<int>, random': seq<int>, now: int,
                      n: nat, at: seq<nat>, list: seq<Address>)
    requires Gathered(before, random, now, n, at, list) && OthersStay(before, after, {})
    requires |random'| == |random| && forall k :: 0 <= k < n ==> random'[k] == random[k]
    ensures Gathered(after, random', now, n, at, list)
  {
    forall i | 0 <= i < |list|
      ensures random'[at[i]] in after
      ensures list[i] == Address(after[random'[at[i]]].service, after[random'[at[i]]].time,
                                 after[random'[at[i]]].services)
      ensures !IsTerrible(after[random'[at[i]]], now)
    {
      assert StillThere(before, after, random[at[i]]);
    }
  }
}
