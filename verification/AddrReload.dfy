/** Reading peers.dat, and that nothing is lost on the way (src/addrman.h). */
module AddrReload {
  import opened AddrInfo
  import opened AddrTables
  import opened AddrMan
  import opened AddrPeers
  import opened Sets

  function All(p: Peers): seq<Saved> {
    p.news + p.tried
  }

  /** The first n entries of the file have been read. */
  ghost predicate Loaded(p: Peers, info: map<int, Info>, n: nat) {
    && n <= |All(p)|
    && (forall i :: i in info <==> 0 <= i < n)
    && (forall k :: 0 <= k < n && k in info ==>
        info[k] == Load(All(p)[k], k, k >= |p.news|).(refCount := info[k].refCount))
  }

  ghost predicate SlotFits(p: Peers, table: map<Slot, int>, ids: seq<int>, s: Slot)
    requires s in table
  {
    var k := IndexOf(ids, table[s]);
    && s.bucket < NEW_BUCKET_COUNT && s.pos < BUCKET_SIZE
    && k < |p.news| && k < |ids| && ids[k] == table[s]
    && s == NewSlot(p.key, s.bucket, p.news[k].address.service)
  }

  ghost predicate NetsApart(p: Peers, i: int, j: int)
    requires 0 <= i < j < |All(p)|
  {
    All(p)[i].address.service.net != All(p)[j].address.service.net
  }

  ghost predicate TriedApart(p: Peers, i: int, j: int)
    requires 0 <= i < j < |p.tried|
  {
    TriedSlot(p.key, p.tried[i].address.service) != TriedSlot(p.key, p.tried[j].address.service)
  }

  ghost predicate NewFits(p: Peers, table: map<Slot, int>, ids: seq<int>, k: int)
    requires 0 <= k < |p.news| && k < |ids|
  {
    1 <= |Slots(table, ids[k])| <= NEW_BUCKETS_PER_ADDRESS
  }

  ghost predicate RowFits(p: Peers, table: map<Slot, int>, ids: seq<int>, b: int)
    requires 0 <= b < |p.rows|
  {
    p.rows[b] == Row(table, ids, b, BUCKET_SIZE)
  }

  /** No two entries of the file are in each other's way. */
  ghost predicate Loadable(p: Peers) {
    && p.nNew == |p.news| && p.nTried == |p.tried|
    && (forall i, j {:trigger NetsApart(p, i, j)} :: 0 <= i < j < |All(p)| ==> NetsApart(p, i, j))
    && (forall i, j {:trigger TriedApart(p, i, j)} :: 0 <= i < j < |p.tried| ==> TriedApart(p, i, j))
    && (forall k :: 0 <= k < |p.news| ==> p.news[k].lastSuccess >= 0)
    && (forall k :: 0 <= k < |p.tried| ==> p.tried[k].lastSuccess > 0)
  }

  /** What makes a file describe consistent tables. */
  ghost predicate Sound(p: Peers, table: map<Slot, int>, ids: seq<int>) {
    && Loadable(p)
    && p.nBuckets == |p.rows| == NEW_BUCKET_COUNT
    && |ids| == |All(p)| && Distinct(ids)
    && (forall k {:trigger NewFits(p, table, ids, k)} :: 0 <= k < |p.news| ==> NewFits(p, table, ids, k))
    && (forall s {:trigger SlotFits(p, table, ids, s)} :: s in table ==> SlotFits(p, table, ids, s))
    && (forall b {:trigger RowFits(p, table, ids, b)} :: 0 <= b < |p.rows| ==> RowFits(p, table, ids, b))
  }

  /** A file that describes consistent tables is sound. */
  lemma DescribesIsSound(t: Tables, p: Peers, ids: seq<int>)
    requires t.Ok({}, {}) && Describes(p, t.key, t.info, t.vvNew, ids)
    ensures Sound(p, t.vvNew, ids)
  {
    NetsAreApart(t, p, ids);
    TriedAreApart(t, p, ids);
    NewAreSound(t, p, ids);
  }

  lemma NetsAreApart(t: Tables, p: Peers, ids: seq<int>)
    requires t.Ok({}, {}) && Describes(p, t.key, t.info, t.vvNew, ids)
    ensures forall i, j {:trigger NetsApart(p, i, j)} :: 0 <= i < j < |All(p)| ==> NetsApart(p, i, j)
  {
    forall i, j | 0 <= i < j < |All(p)|
      ensures NetsApart(p, i, j)
    {
      assert t.EntryOk({}, ids[i]) && t.EntryOk({}, ids[j]);
    }
  }

  lemma TriedAreApart(t: Tables, p: Peers, ids: seq<int>)
    requires t.Ok({}, {}) && Describes(p, t.key, t.info, t.vvNew, ids)
    ensures forall k :: 0 <= k < |p.tried| ==> p.tried[k].lastSuccess > 0
    ensures forall i, j {:trigger TriedApart(p, i, j)} :: 0 <= i < j < |p.tried| ==> TriedApart(p, i, j)
  {
    forall k | 0 <= k < |p.tried|
      ensures p.tried[k] == Save(t.info[ids[|p.news| + k]]) && t.info[ids[|p.news| + k]].inTried
      ensures t.EntryOk({}, ids[|p.news| + k])
    {
      assert All(p)[|p.news| + k] == p.tried[k];
    }
    forall i, j | 0 <= i < j < |p.tried|
      ensures TriedApart(p, i, j)
    {
      assert t.EntryOk({}, ids[|p.news| + i]) && t.EntryOk({}, ids[|p.news| + j]);
    }
  }

  lemma NewAreSound(t: Tables, p: Peers, ids: seq<int>)
    requires t.Ok({}, {}) && Describes(p, t.key, t.info, t.vvNew, ids)
    ensures forall k :: 0 <= k < |p.news| ==> p.news[k].lastSuccess >= 0
    ensures forall k {:trigger NewFits(p, t.vvNew, ids, k)} :: 0 <= k < |p.news| ==> NewFits(p, t.vvNew, ids, k)
    ensures forall s {:trigger SlotFits(p, t.vvNew, ids, s)} :: s in t.vvNew ==> SlotFits(p, t.vvNew, ids, s)
  {
    forall k | 0 <= k < |p.news|
      ensures NewFits(p, t.vvNew, ids, k) && p.news[k].lastSuccess >= 0
    {
      assert All(p)[k] == p.news[k] && t.EntryOk({}, ids[k]);
    }
    forall s | s in t.vvNew
      ensures SlotFits(p, t.vvNew, ids, s)
    {
      assert t.NewSlotOk(s);
      var k := IndexOf(ids, t.vvNew[s]);
      assert t.vvNew[s] in ids && ids[k] == t.vvNew[s] && k < |p.news|;
      assert All(p)[k] == p.news[k];
    }
  }

  lemma AllAt(p: Peers, k: nat)
    requires k < |All(p)|
    ensures All(p)[k] == if k < |p.news| then p.news[k] else p.tried[k - |p.news|]
  {
  }

  /** The tables of a reader that has met so many entries; it counts them only at the end. */
  ghost function Counting(m: AddrManager, nNew: nat, nTried: nat): Tables
    reads m
  {
    m.Now().(nNew := nNew, nTried := nTried, idCount := nNew + nTried)
  }

  /** The state of the reader before the bucket rows are read. */
  ghost predicate ReadOk(p: Peers, t: Tables) {
    && t.key == p.key && t.vvNew == map[] && |t.random| == t.idCount && t.Ok(t.info.Keys, {}) &&
      Loaded(p, t.info, t.idCount)
  }

  ghost predicate Reading(m: AddrManager, p: Peers, nNew: nat, nTried: nat)
    reads m
  {
    ReadOk(p, Counting(m, nNew, nTried))
  }

  /** An address that was read before has another network address than the next one. */
  lemma NextIsUnknown(p: Peers, t: Tables)
    requires Loadable(p) && ReadOk(p, t) && t.idCount < |All(p)|
    ensures All(p)[t.idCount].address.service.net !in t.addr
  {
    var x := All(p)[t.idCount].address.service.net;
    forall i | 0 <= i < t.idCount
      ensures i in t.info && t.info[i].service.net != x
    {
      assert NetsApart(p, i, t.idCount);
    }
    assert x in t.addr ==> t.NetOk(x);
  }

  lemma LoadedMore(p: Peers, info: map<int, Info>, n: nat, x: Info)
    requires Loaded(p, info, n) && n < |All(p)| && x == Load(All(p)[n], n, n >= |p.news|)
    ensures Loaded(p, info[n := x], n + 1)
  {
  }

  lemma NewKeeps(t: Tables, x: Info)
    requires t.Ok(t.info.Keys, {}) && x.service.net !in t.addr
    requires x.randomPos == |t.random| && x.refCount == 0 && !x.inTried && x.lastTry >= 0 && x.lastSuccess >= 0
    ensures var t' := Counted(t.Created(x)); t'.Ok(t'.info.Keys, {})
  {
    CreateKeeps(t, t.info.Keys, {}, x);
    CountNext(t.Created(x), t.info.Keys, t.idCount);
  }

  ghost function Counted(t: Tables): Tables {
    t.(nNew := t.nNew + 1)
  }

  lemma CountNext(t: Tables, others: set<int>, n: int)
    requires t.Ok(others + {n}, {} + {n}) && n in t.info && others <= t.info.Keys
    ensures Counted(t).Ok(Counted(t).info.Keys, {})
  {
    CountKeeps(t, others + {n}, {} + {n}, n);
    assert {} + {n} - {n} == {};
    ZeroKeeps(Counted(t), others + {n}, {}, Counted(t).info.Keys);
  }

  /** One entry more of the new table. */
  method LoadNew(m: AddrManager, p: Peers, n: nat)
    requires Loadable(p) && n < |p.news| && Reading(m, p, n, 0)
    modifies m
    ensures Reading(m, p, n + 1, 0)
  {
    AllAt(p, n);
    ghost var t := Counting(m, n, 0);
    NextIsUnknown(p, t);
    var x := Load(p.news[n], n, false);
    NewKeeps(t, x);
    LoadedMore(p, t.info, n, x);
    Append(m, n, x);
    assert Counting(m, n + 1, 0) == Counted(t.Created(x));
  }

  /** The entry gets the number n and the last place. */
  method Append(m: AddrManager, n: nat, x: Info)
    modifies m
    ensures m.mapInfo == old(m.mapInfo)[n := x] && m.mapAddr == old(m.mapAddr)[x.service.net := n]
    ensures m.vRandom == old(m.vRandom) + [n]
    ensures m.vvNew == old(m.vvNew) && m.vvTried == old(m.vvTried) && m.nNew == old(m.nNew)
    ensures m.nTried == old(m.nTried) && m.nIdCount == old(m.nIdCount)
  {
    m.mapInfo := m.mapInfo[n := x];
    m.mapAddr := m.mapAddr[x.service.net := n];
    m.vRandom := m.vRandom + [n];
  }

  /** The same for an entry of the tried table. */
  method AppendTried(m: AddrManager, n: nat, x: Info)
    modifies m
    ensures m.mapInfo == old(m.mapInfo)[n := x] && m.mapAddr == old(m.mapAddr)[x.service.net := n]
    ensures m.vRandom == old(m.vRandom) + [n]
    ensures m.vvNew == old(m.vvNew) && m.vvTried == old(m.vvTried)[TriedSlot(m.h, x.service) := n]
  {
    Append(m, n, x);
    m.vvTried := m.vvTried[TriedSlot(m.h, x.service) := n];
  }

  /** The slot of the next tried entry is empty. */
  lemma NextSlotIsEmpty(p: Peers, t: Tables, k: nat)
    requires Loadable(p) && k < |p.tried| && ReadOk(p, t) && t.idCount == |p.news| + k
    ensures TriedSlot(p.key, p.tried[k].address.service) !in t.vvTried
  {
    var s := TriedSlot(p.key, p.tried[k].address.service);
    forall j | |p.news| <= j < |p.news| + k
      ensures j in t.info && TriedSlot(p.key, t.info[j].service) != s
    {
      AllAt(p, j);
      assert TriedApart(p, j - |p.news|, k);
    }
    assert s in t.vvTried ==> t.TriedSlotOk(s);
  }

  /** One entry more of the tried table, unless its slot is taken. */
  method LoadTried(m: AddrManager, p: Peers, k: nat) returns (lost: int)
    requires Loadable(p) && k < |p.tried| && Reading(m, p, |p.news|, k)
    modifies m
    ensures Reading(m, p, |p.news|, k + 1) && lost == 0
  {
    var n := |p.news| + k;
    AllAt(p, n);
    NextSlotIsEmpty(p, Counting(m, |p.news|, k), k);
    NextIsUnknown(p, Counting(m, |p.news|, k));
    var x := Load(p.tried[k], n, true);
    lost := 0;
    if TriedSlot(m.h, x.service) !in m.vvTried {
      EnterTried(m, p, k, n, x);
    } else {
      lost := 1;
    }
  }

  method EnterTried(m: AddrManager, p: Peers, k: nat, n: nat, x: Info)
    requires k < |p.tried| && n == |p.news| + k && Reading(m, p, |p.news|, k) && x == Load(All(p)[n], n, true)
    requires x.lastSuccess > 0
    requires TriedSlot(m.h, x.service) !in m.vvTried && x.service.net !in m.mapAddr
    modifies m
    ensures Reading(m, p, |p.news|, k + 1)
  {
    ghost var t := Counting(m, |p.news|, k);
    TriedKeeps(t, x);
    LoadedMore(p, t.info, n, x);
    AppendTried(m, n, x);
    assert Counting(m, |p.news|, k + 1) == StraightToTried(t, x);
  }

  /** The tables with an entry that is tried from the start. */
  ghost function StraightToTried(t: Tables, x: Info): Tables {
    t.Created(x).(vvTried := t.vvTried[TriedSlot(t.key, x.service) := t.idCount], nTried := t.nTried + 1)
  }

  lemma TriedKeeps(t: Tables, x: Info)
    requires t.Ok(t.info.Keys, {}) && x.service.net !in t.addr
    requires x.randomPos == |t.random| && x.refCount == 0 && x.inTried && x.lastTry >= 0 && x.lastSuccess > 0
    requires TriedSlot(t.key, x.service) !in t.vvTried
    ensures var t' := StraightToTried(t, x); t'.Ok(t'.info.Keys, {})
  {
    var t1 := t.Created(x.(inTried := false));
    CreateKeeps(t, t.info.Keys, {}, x.(inTried := false));
    PromoteNext(t1, t.info.Keys, t.idCount);
    StraightIs(t, x);
  }

  lemma StraightIs(t: Tables, x: Info)
    requires x.inTried
    ensures t.Created(x.(inTried := false)).Promoted(t.idCount) == StraightToTried(t, x)
  {
    var t1 := t.Created(x.(inTried := false));
    assert t1.Promoted(t.idCount).info == t.info[t.idCount := x];
  }

  lemma PromoteNext(t: Tables, others: set<int>, n: int)
    requires t.Ok(others + {n}, {} + {n}) && n in t.info && t.info[n].refCount == 0 && t.info[n].lastSuccess > 0
    requires others <= t.info.Keys && TriedSlot(t.key, t.info[n].service) !in t.vvTried
    ensures var t' := t.Promoted(n); t'.Ok(t'.info.Keys, {})
  {
    PromoteKeeps(t, others + {n}, {} + {n}, n);
    assert {} + {n} - {n} == {};
    ZeroKeeps(t.Promoted(n), others + {n} - {n}, {}, t.Promoted(n).info.Keys);
  }

  /** A longer part of a bucket has a longer row. */
  lemma {:induction false} RowGrows(table: map<Slot, int>, ids: seq<int>, b: nat, i: nat, j: nat)
    requires i <= j
    ensures |Row(table, ids, b, i)| <= |Row(table, ids, b, j)|
    ensures i < j && Slot(b, i) in table ==> |Row(table, ids, b, i)| < |Row(table, ids, b, j)|
    decreases j
  {
    if i < j {
      RowGrows(table, ids, b, i, j - 1);
    }
  }

  /** Every number of a row stands for an occupied slot. */
  lemma {:induction false} RowAt(table: map<Slot, int>, ids: seq<int>, b: nat, m: nat, n: nat) returns (i: nat)
    requires n < |Row(table, ids, b, m)|
    ensures i < m && Slot(b, i) in table && |Row(table, ids, b, i)| == n
    ensures Row(table, ids, b, m)[n] == IndexOf(ids, table[Slot(b, i)])
  {
    if n < |Row(table, ids, b, m - 1)| {
      i := RowAt(table, ids, b, m - 1, n);
    } else {
      i := m - 1;
    }
  }

  /** The slot belongs to one of the first n numbers of row b, or to an earlier row. */
  ghost predicate Done(table: map<Slot, int>, ids: seq<int>, b: nat, n: nat, s: Slot) {
    s.bucket < b || (s.bucket == b && |Row(table, ids, b, s.pos)| < n)
  }

  ghost predicate FilledAt(table: map<Slot, int>, ids: seq<int>, vvNew: map<Slot, int>, b: nat, n: nat, s: Slot) {
    && (s in vvNew <==> s in table && Done(table, ids, b, n, s))
    && (s in vvNew && s in table ==> vvNew[s] == IndexOf(ids, table[s]))
  }

  ghost predicate Filled(table: map<Slot, int>, ids: seq<int>, vvNew: map<Slot, int>, b: nat, n: nat) {
    forall s {:trigger FilledAt(table, ids, vvNew, b, n, s)} :: FilledAt(table, ids, vvNew, b, n, s)
  }

  ghost predicate FillOk(p: Peers, table: map<Slot, int>, ids: seq<int>, t: Tables, b: nat, n: nat) {
    && t.key == p.key && t.idCount == |ids| && t.Ok(t.info.Keys, {}) && Loaded(p, t.info, t.idCount)
    && Filled(table, ids, t.vvNew, b, n)
  }

  ghost predicate Filling(m: AddrManager, p: Peers, table: map<Slot, int>, ids: seq<int>, b: nat, n: nat)
    reads m
  {
    FillOk(p, table, ids, Counting(m, |p.news|, |p.tried|), b, n)
  }

  /** The next number of a row gets its slot. */
  lemma FilledMore(table: map<Slot, int>, ids: seq<int>, vvNew: map<Slot, int>, b: nat, n: nat, s: Slot)
    requires Filled(table, ids, vvNew, b, n) && s in table && s.bucket == b && |Row(table, ids, b, s.pos)| == n
    ensures s !in vvNew && Filled(table, ids, vvNew[s := IndexOf(ids, table[s])], b, n + 1)
  {
    assert FilledAt(table, ids, vvNew, b, n, s);
    var vvNew', n' := vvNew[s := IndexOf(ids, table[s])], n + 1;
    forall t
      ensures FilledAt(table, ids, vvNew', b, n', t)
    {
      assert FilledAt(table, ids, vvNew, b, n, t);
      if t in table && t.bucket == b {
        RowGrows(table, ids, b, if t.pos <= s.pos then t.pos else s.pos, if t.pos <= s.pos then s.pos else t.pos);
      }
    }
  }

  /** Row after row. */
  lemma FilledRow(p: Peers, table: map<Slot, int>, ids: seq<int>, vvNew: map<Slot, int>, b: nat)
    requires Sound(p, table, ids) && b < NEW_BUCKET_COUNT && Filled(table, ids, vvNew, b, |p.rows[b]|)
    ensures Filled(table, ids, vvNew, b + 1, 0)
  {
    var b' := b + 1;
    forall t
      ensures FilledAt(table, ids, vvNew, b', 0, t)
    {
      assert FilledAt(table, ids, vvNew, b, |p.rows[b]|, t);
      if t in table && t.bucket == b {
        assert SlotFits(p, table, ids, t);
        assert RowFits(p, table, ids, b);
        RowGrows(table, ids, b, t.pos, BUCKET_SIZE);
      }
    }
  }

  /** An entry has room for the reference that the next number of a row asks for. */
  lemma RoomForOne(p: Peers, table: map<Slot, int>, ids: seq<int>, vvNew: map<Slot, int>, b: nat, n: nat, s: Slot)
    requires Sound(p, table, ids) && Filled(table, ids, vvNew, b, n) && s in table && s !in vvNew
    ensures var k := IndexOf(ids, table[s]); k < |p.news| && |Slots(vvNew, k)| < NEW_BUCKETS_PER_ADDRESS
  {
    assert SlotFits(p, table, ids, s);
    var k := IndexOf(ids, table[s]);
    forall t | t in Slots(vvNew, k)
      ensures t in Slots(table, ids[k]) && t != s
    {
      assert FilledAt(table, ids, vvNew, b, n, t) && SlotFits(p, table, ids, t);
    }
    assert NewFits(p, table, ids, k);
    SmallerSet(Slots(vvNew, k), Slots(table, ids[k]), s);
  }

  /** The slot that number n of row b stands for, and the entry it belongs to. */
  lemma SlotOfIndex(p: Peers, table: map<Slot, int>, ids: seq<int>, b: nat, n: nat) returns (s: Slot)
    requires Sound(p, table, ids) && b < NEW_BUCKET_COUNT && n < |p.rows[b]|
    ensures s in table && s.bucket == b && |Row(table, ids, b, s.pos)| == n && SlotFits(p, table, ids, s)
    ensures var k := p.rows[b][n];
            k == IndexOf(ids, table[s]) && 0 <= k < |p.news| && s == NewSlot(p.key, b, p.news[k].address.service)
  {
    assert RowFits(p, table, ids, b);
    var i := RowAt(table, ids, b, BUCKET_SIZE, n);
    s := Slot(b, i);
    assert SlotFits(p, table, ids, s);
  }

  /** What reading number n of row b amounts to. */
  lemma ReadKeeps(p: Peers, table: map<Slot, int>, ids: seq<int>, t: Tables, b: nat, n: nat)
    requires Sound(p, table, ids) && FillOk(p, table, ids, t, b, n) && b < NEW_BUCKET_COUNT && n < |p.rows[b]|
    ensures var k := p.rows[b][n];
            && 0 <= k < |p.news| && k in t.info && t.info[k].refCount < NEW_BUCKETS_PER_ADDRESS
            && NewSlot(p.key, b, t.info[k].service) !in t.vvNew
            && FillOk(p, table, ids, t.Linked(k, b), b, n + 1)
  {
    var s := SlotOfIndex(p, table, ids, b, n);
    var k := p.rows[b][n];
    AllAt(p, k);
    FilledMore(table, ids, t.vvNew, b, n, s);
    RoomForOne(p, table, ids, t.vvNew, b, n, s);
    LinkLoaded(p, t, k, b);
  }

  lemma LinkLoaded(p: Peers, t: Tables, k: nat, b: nat)
    requires Loaded(p, t.info, t.idCount) && t.Ok(t.info.Keys, {}) && k < |p.news| && k < t.idCount
    requires b < NEW_BUCKET_COUNT
    requires |Slots(t.vvNew, k)| < NEW_BUCKETS_PER_ADDRESS && NewSlot(t.key, b, t.info[k].service) !in t.vvNew
    ensures t.info[k].refCount < NEW_BUCKETS_PER_ADDRESS
    ensures var t' := t.Linked(k, b); Loaded(p, t'.info, t'.idCount) && t'.Ok(t'.info.Keys, {})
  {
    assert t.EntryOk(t.info.Keys, k);
    LinkKeeps(t, t.info.Keys, {}, k, b);
    var t' := t.Linked(k, b);
    ZeroKeeps(t', t.info.Keys - {k}, {}, t'.info.Keys);
  }

  /** One number of a row. */
  method ReadIndex(m: AddrManager, p: Peers, ghost table: map<Slot, int>, ghost ids: seq<int>, b: nat, n: nat)
    requires Sound(p, table, ids) && Filling(m, p, table, ids, b, n) && b < NEW_BUCKET_COUNT && n < |p.rows[b]|
    modifies m
    ensures Filling(m, p, table, ids, b, n + 1)
  {
    ghost var t := Counting(m, |p.news|, |p.tried|);
    ReadKeeps(p, table, ids, t, b, n);
    var k := p.rows[b][n];
    if 0 <= k < p.nNew && k in m.mapInfo {
      var s := NewSlot(m.h, b, m.mapInfo[k].service);
      if p.nBuckets == NEW_BUCKET_COUNT && s !in m.vvNew && m.mapInfo[k].refCount < NEW_BUCKETS_PER_ADDRESS {
        Refer(m, k, s);
        assert Counting(m, |p.news|, |p.tried|) == t.Linked(k, b);
      }
    }
  }

  method Refer(m: AddrManager, k: int, s: Slot)
    requires k in m.mapInfo
    modifies m
    ensures k in old(m.mapInfo) && m.mapInfo == WithRef(old(m.mapInfo), k, old(m.mapInfo)[k].refCount + 1)
    ensures m.vvNew == old(m.vvNew)[s := k]
    ensures m.mapAddr == old(m.mapAddr) && m.vRandom == old(m.vRandom) && m.vvTried == old(m.vvTried)
  {
    m.mapInfo := WithRef(m.mapInfo, k, m.mapInfo[k].refCount + 1);
    m.vvNew := m.vvNew[s := k];
  }

  method ReadRows(m: AddrManager, p: Peers, ghost table: map<Slot, int>, ghost ids: seq<int>)
    requires Sound(p, table, ids) && Filling(m, p, table, ids, 0, 0)
    modifies m
    ensures Filling(m, p, table, ids, NEW_BUCKET_COUNT, 0)
  {
    var b := 0;
    while b < p.nBuckets
      invariant 0 <= b <= p.nBuckets && Filling(m, p, table, ids, b, 0)
    {
      ReadRow(m, p, table, ids, b);
      FilledRow(p, table, ids, m.vvNew, b);
      b := b + 1;
    }
  }

  method ReadRow(m: AddrManager, p: Peers, ghost table: map<Slot, int>, ghost ids: seq<int>, b: nat)
    requires Sound(p, table, ids) && Filling(m, p, table, ids, b, 0) && b < NEW_BUCKET_COUNT
    modifies m
    ensures Filling(m, p, table, ids, b, |p.rows[b]|)
  {
    var n := 0;
    while n < |p.rows[b]|
      invariant 0 <= n <= |p.rows[b]| && Filling(m, p, table, ids, b, n)
    {
      ReadIndex(m, p, table, ids, b, n);
      n := n + 1;
    }
  }

  predicate Unreferenced(x: Info) {
    !x.inTried && x.refCount == 0
  }

  /** Deletes exactly the new entries that got no reference; the others stay as they are, perhaps at
      another place of vRandom. */
  method Prune(m: AddrManager, ghost zero: set<int>) returns (lost: nat)
    requires m.Inv(zero, {})
    modifies m
    ensures m.Valid()
    ensures forall i :: i in m.mapInfo <==> i in old(m.mapInfo) && !Unreferenced(old(m.mapInfo)[i])
    ensures forall i :: i in m.mapInfo && i in old(m.mapInfo) ==> Alike(m.mapInfo[i], old(m.mapInfo)[i])
    ensures (forall i :: i in old(m.mapInfo) ==> !Unreferenced(old(m.mapInfo)[i])) ==>
              lost == 0 && m.mapInfo == old(m.mapInfo) && m.vvNew == old(m.vvNew)
  {
    var order := InOrder(m.mapInfo);
    lost := PruneAll(m, order, zero);
    ZeroKeeps(m.Now(), zero, {}, {});
  }

  method PruneAll(m: AddrManager, order: seq<int>, ghost zero: set<int>) returns (lost: nat)
    requires m.Inv(zero, {})
    modifies m
    ensures m.Inv(zero, {}) && PrunedFrom(old(m.mapInfo), m.mapInfo) && AllReferenced(m.mapInfo, order)
    ensures lost == 0 ==> m.mapInfo == old(m.mapInfo) && m.vvNew == old(m.vvNew)
    ensures lost > 0 ==> exists i :: i in old(m.mapInfo) && Unreferenced(old(m.mapInfo)[i])
  {
    ghost var first := m.mapInfo;
    PrunedNothing(first);
    var j := 0;
    lost := 0;
    while j < |order|
      invariant 0 <= j <= |order| && m.Inv(zero, {}) && PrunedFrom(first, m.mapInfo)
      invariant AllReferenced(m.mapInfo, order[..j])
      invariant lost == 0 ==> m.mapInfo == first && m.vvNew == old(m.vvNew)
      invariant lost > 0 ==> exists i :: i in first && Unreferenced(first[i])
    {
      ghost var info := m.mapInfo;
      var one := PruneNext(m, order[j], zero, first);
      ReferencedMore(info, m.mapInfo, order, j);
      lost, j := lost + one, j + 1;
    }
    assert order[..j] == order;
  }

  /** None of the ids belongs to an entry without references. */
  ghost predicate AllReferenced(info: map<int, Info>, ids: seq<int>) {
    forall k :: 0 <= k < |ids| && ids[k] in info ==> !Unreferenced(info[ids[k]])
  }

  lemma ReferencedMore(before: map<int, Info>, after: map<int, Info>, ids: seq<int>, j: nat)
    requires j < |ids| && AllReferenced(before, ids[..j])
    requires forall i :: i in after ==> i in before && Unreferenced(after[i]) == Unreferenced(before[i])
    requires ids[j] in after ==> !Unreferenced(after[ids[j]])
    ensures AllReferenced(after, ids[..j + 1])
  {
    forall k | 0 <= k < j + 1 && ids[k] in after
      ensures !Unreferenced(after[ids[k]])
    {
      assert k < j ==> ids[..j][k] == ids[k];
    }
  }

  lemma PrunedNothing(info: map<int, Info>)
    ensures PrunedFrom(info, info)
  {
  }

  /** Deletes the entry if it is there and got no reference. */
  method PruneNext(m: AddrManager, id: int, ghost zero: set<int>, ghost first: map<int, Info>) returns (lost: nat)
    requires m.Inv(zero, {}) && PrunedFrom(first, m.mapInfo)
    modifies m
    ensures m.Inv(zero, {}) && PrunedFrom(first, m.mapInfo)
    ensures id in m.mapInfo ==> !Unreferenced(m.mapInfo[id])
    ensures forall i :: i in m.mapInfo ==>
              i in old(m.mapInfo) && Unreferenced(m.mapInfo[i]) == Unreferenced(old(m.mapInfo)[i])
    ensures lost == 0 ==> m.mapInfo == old(m.mapInfo) && m.vvNew == old(m.vvNew)
    ensures lost > 0 ==> id in first && Unreferenced(first[id])
  {
    lost := 0;
    if id in m.mapInfo && Unreferenced(m.mapInfo[id]) {
      ghost var before := m.mapInfo;
      PruneOne(m, id, zero);
      PrunedMore(first, before, m.mapInfo, id);
      lost := 1;
    }
  }

  /** Only unreferenced entries are gone. */
  ghost predicate PrunedFrom(before: map<int, Info>, after: map<int, Info>) {
    && (forall i :: i in after ==> i in before && Alike(after[i], before[i]))
    && (forall i :: i in before && !Unreferenced(before[i]) ==> i in after)
  }

  lemma PrunedMore(a: map<int, Info>, b: map<int, Info>, c: map<int, Info>, id: int)
    requires PrunedFrom(a, b) && id in b && Unreferenced(b[id]) && c.Keys == b.Keys - {id} && OthersStay(b, c, {id})
    ensures PrunedFrom(a, c)
  {
    forall i | i in c
      ensures i in a && Alike(c[i], a[i])
    {
      assert StillThere(b, c, i);
    }
  }

  method PruneOne(m: AddrManager, id: int, ghost zero: set<int>)
    requires m.Inv(zero, {}) && id in m.mapInfo && Unreferenced(m.mapInfo[id])
    modifies m
    ensures m.Inv(zero, {})
    ensures m.mapInfo.Keys == old(m.mapInfo).Keys - {id} && OthersStay(old(m.mapInfo), m.mapInfo, {id})
    ensures forall i :: i in m.mapInfo ==>
              i != id && i in old(m.mapInfo) && Unreferenced(m.mapInfo[i]) == Unreferenced(old(m.mapInfo)[i])
  {
    ghost var before := m.mapInfo;
    m.Delete(id, zero, {});
    ZeroKeeps(m.Now(), zero - {id}, {}, zero);
    forall i | i in m.mapInfo
      ensures i != id && i in before && Unreferenced(m.mapInfo[i]) == Unreferenced(before[i])
    {
      assert StillThere(before, m.mapInfo, i);
    }
  }

  lemma EmptyOk(p: Peers)
    ensures ReadOk(p, Tables(p.key, map[], map[], [], map[], map[], 0, 0, 0))
  {
    var none: map<int, Info> := map[];
    assert Tried(none) == {} && Untried(none) == {} && Untried(none) - {} == {} && none.Keys == {};
  }

  method LoadAllNew(m: AddrManager, p: Peers)
    requires Loadable(p) && Reading(m, p, 0, 0)
    modifies m
    ensures Reading(m, p, |p.news|, 0)
  {
    var n := 0;
    while n < p.nNew
      invariant 0 <= n <= |p.news| && Reading(m, p, n, 0)
    {
      LoadNew(m, p, n);
      n := n + 1;
    }
  }

  method LoadAllTried(m: AddrManager, p: Peers) returns (lost: int)
    requires Loadable(p) && Reading(m, p, |p.news|, 0)
    modifies m
    ensures Reading(m, p, |p.news|, |p.tried|) && lost == 0
  {
    var k := 0;
    lost := 0;
    while k < p.nTried
      invariant 0 <= k <= |p.tried| && lost == 0 && Reading(m, p, |p.news|, k)
    {
      var one := LoadTried(m, p, k);
      lost, k := lost + one, k + 1;
    }
  }

  /** Before any row is read, no slot of the new table is filled. */
  lemma NothingFilled(m: AddrManager, p: Peers, table: map<Slot, int>, ids: seq<int>)
    requires Sound(p, table, ids) && Reading(m, p, |p.news|, |p.tried|)
    ensures Filling(m, p, table, ids, 0, 0)
  {
    forall s
      ensures FilledAt(table, ids, map[], 0, 0, s)
    {
    }
  }

  /** After all rows, the new table is as it was, and every entry has a reference or is tried. */
  lemma AllFilled(m: AddrManager, p: Peers, table: map<Slot, int>, ids: seq<int>)
    requires Sound(p, table, ids) && Filling(m, p, table, ids, NEW_BUCKET_COUNT, 0)
    ensures forall s :: s in m.vvNew <==> s in table
    ensures forall s :: s in table ==> m.vvNew[s] == IndexOf(ids, table[s])
    ensures forall i :: i in m.mapInfo ==> !Unreferenced(m.mapInfo[i])
  {
    forall s
      ensures s in m.vvNew <==> s in table
      ensures s in table ==> m.vvNew[s] == IndexOf(ids, table[s])
    {
      assert FilledAt(table, ids, m.vvNew, NEW_BUCKET_COUNT, 0, s);
      assert s in table ==> SlotFits(p, table, ids, s);
    }
    forall i | i in m.mapInfo
      ensures !Unreferenced(m.mapInfo[i])
    {
      assert Counting(m, |p.news|, |p.tried|).EntryOk(m.mapInfo.Keys, i);
      if i < |p.news| {
        assert NewFits(p, table, ids, i) && Slots(table, ids[i]) != {};
        var s := Any(Slots(table, ids[i]));
        IndexIs(ids, i);
        assert s in Slots(m.vvNew, i);
      }
    }
  }

  /** Reads a sound file into a manager with its key; no entry is lost to a collision. */
  method Unserialize(p: Peers, ghost table: map<Slot, int>, ghost ids: seq<int>) returns (m: AddrManager)
    requires Sound(p, table, ids)
    ensures fresh(m) && m.Valid() && m.h == p.key && Loaded(p, m.mapInfo, |ids|)
    ensures forall s :: s in m.vvNew <==> s in table
    ensures forall s :: s in table ==> m.vvNew[s] == IndexOf(ids, table[s])
  {
    m := new AddrManager(p.key);
    var lost := LoadEntries(m, p, table, ids);
    ReadRows(m, p, table, ids);
    AllFilled(m, p, table, ids);
    ghost var t := Counting(m, |p.news|, |p.tried|);
    Counters(m, p, lost, |p.news| + |p.tried|);
    assert m.Now() == t;
    var lostNew := Prune(m, m.mapInfo.Keys);
  }

  method LoadEntries(m: AddrManager, p: Peers, ghost table: map<Slot, int>, ghost ids: seq<int>) returns (lost: int)
    requires Sound(p, table, ids) && m.h == p.key
    requires m.mapInfo == map[] && m.mapAddr == map[] && m.vRandom == [] && m.vvNew == map[] && m.vvTried == map[]
    modifies m
    ensures Filling(m, p, table, ids, 0, 0) && lost == 0
  {
    EmptyOk(p);
    LoadAllNew(m, p);
    lost := LoadAllTried(m, p);
    NothingFilled(m, p, table, ids);
  }

  method Counters(m: AddrManager, p: Peers, lost: int, size: nat)
    modifies m
    ensures m.nNew == p.nNew && m.nTried == p.nTried - lost && m.nIdCount == size
    ensures m.mapInfo == old(m.mapInfo) && m.mapAddr == old(m.mapAddr) && m.vRandom == old(m.vRandom)
    ensures m.vvNew == old(m.vvNew) && m.vvTried == old(m.vvTried)
  {
    m.nNew, m.nTried, m.nIdCount := p.nNew, p.nTried - lost, size;
  }

  ghost predicate EntryRecovered(t: Tables, r: Tables, ids: seq<int>, k: int)
    requires 0 <= k < |ids|
  {
    && k in r.info && ids[k] in t.info && Save(r.info[k]) == Save(t.info[ids[k]])
    && r.info[k].inTried == t.info[ids[k]].inTried && r.info[k].refCount == t.info[ids[k]].refCount
  }

  ghost predicate SlotsRecovered(before: map<Slot, int>, after: map<Slot, int>, ids: seq<int>) {
    && (forall s :: s in after <==> s in before)
    && (forall s :: s in before && s in after ==> 0 <= after[s] < |ids| && ids[after[s]] == before[s])
  }

  /** The tables r are the tables t with the entries renumbered. */
  ghost predicate Recovered(t: Tables, r: Tables, ids: seq<int>) {
    && r.key == t.key
    && Distinct(ids) && (forall i :: i in t.info <==> i in ids) && (forall k :: k in r.info <==> 0 <= k < |ids|)
    && (forall k {:trigger EntryRecovered(t, r, ids, k)} :: 0 <= k < |ids| ==> EntryRecovered(t, r, ids, k))
    && SlotsRecovered(t.vvNew, r.vvNew, ids)
    && SlotsRecovered(t.vvTried, r.vvTried, ids)
  }

  /** Writing a manager and reading the file gives a manager with the same key, entries and tables. */
  method WriteAndRead(m: AddrManager) returns (r: AddrManager, ghost ids: seq<int>)
    requires m.Valid()
    ensures fresh(r) && r.Valid() && Recovered(m.Now(), r.Now(), ids)
  {
    var p;
    p, ids := Serialize(m);
    DescribesIsSound(m.Now(), p, ids);
    r := Unserialize(p, m.vvNew, ids);
    AllRecovered(m.Now(), r.Now(), p, ids);
  }

  lemma AllRecovered(t: Tables, r: Tables, p: Peers, ids: seq<int>)
    requires t.Ok({}, {}) && r.Ok({}, {}) && r.key == t.key
    requires Describes(p, t.key, t.info, t.vvNew, ids) && Loaded(p, r.info, |ids|)
    requires forall s :: s in r.vvNew <==> s in t.vvNew
    requires forall s :: s in t.vvNew ==> r.vvNew[s] == IndexOf(ids, t.vvNew[s])
    ensures Recovered(t, r, ids)
  {
    NewRecovered(t, r, ids, |p.news|);
    forall k | 0 <= k < |ids|
      ensures EntryRecovered(t, r, ids, k)
    {
      OneRecovered(t, r, p, ids, k);
    }
    TriedRecovered(t, r, ids, |p.news|);
  }

  lemma NewRecovered(t: Tables, r: Tables, ids: seq<int>, nNew: nat)
    requires t.Ok({}, {}) && Lists(t.info, ids, nNew)
    requires forall s :: s in r.vvNew <==> s in t.vvNew
    requires forall s :: s in t.vvNew ==> r.vvNew[s] == IndexOf(ids, t.vvNew[s])
    ensures SlotsRecovered(t.vvNew, r.vvNew, ids)
  {
    forall s | s in t.vvNew
      ensures 0 <= r.vvNew[s] < |ids| && ids[r.vvNew[s]] == t.vvNew[s]
    {
      assert t.NewSlotOk(s);
    }
  }

  lemma SlotsRenamed(before: map<Slot, int>, after: map<Slot, int>, ids: seq<int>, k: nat)
    requires SlotsRecovered(before, after, ids) && Distinct(ids) && k < |ids|
    ensures Slots(after, k) == Slots(before, ids[k])
  {
  }

  lemma OneRecovered(t: Tables, r: Tables, p: Peers, ids: seq<int>, k: nat)
    requires t.Ok({}, {}) && r.Ok({}, {}) && Describes(p, t.key, t.info, t.vvNew, ids)
    requires Loaded(p, r.info, |ids|) && k < |ids|
    requires SlotsRecovered(t.vvNew, r.vvNew, ids)
    ensures EntryRecovered(t, r, ids, k)
  {
    assert k in r.info && All(p)[k] == Save(t.info[ids[k]]);
    assert r.EntryOk({}, k) && t.EntryOk({}, ids[k]);
    SlotsRenamed(t.vvNew, r.vvNew, ids, k);
  }

  lemma TriedRecovered(t: Tables, r: Tables, ids: seq<int>, nNew: nat)
    requires t.Ok({}, {}) && r.Ok({}, {}) && r.key == t.key && Lists(t.info, ids, nNew)
    requires forall k :: k in r.info <==> 0 <= k < |ids|
    requires forall k {:trigger EntryRecovered(t, r, ids, k)} :: 0 <= k < |ids| ==> EntryRecovered(t, r, ids, k)
    ensures SlotsRecovered(t.vvTried, r.vvTried, ids)
  {
    forall s | s in t.vvTried
      ensures s in r.vvTried && 0 <= r.vvTried[s] < |ids| && ids[r.vvTried[s]] == t.vvTried[s]
    {
      assert t.TriedSlotOk(s);
      var k := IndexOf(ids, t.vvTried[s]);
      assert ids[k] == t.vvTried[s] && EntryRecovered(t, r, ids, k);
      assert r.EntryOk({}, k);
    }
    forall s | s in r.vvTried
      ensures s in t.vvTried
    {
      assert r.TriedSlotOk(s);
      var k := r.vvTried[s];
      assert EntryRecovered(t, r, ids, k) && t.EntryOk({}, ids[k]);
    }
  }
}
