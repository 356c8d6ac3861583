/** Writing the address manager to peers.dat and reading it back (src/addrman.h). */
module AddrPeers {
  import opened AddrInfo
  import opened AddrTables
  import opened AddrMan
  import opened Sets

  /** What is written of an entry. */
  datatype Saved = Saved(address: Address, source: int, lastSuccess: int, attempts: int)

  /** The file after its version: a row for each new bucket, of numbers into news. */
  datatype Peers = Peers(key: Hashes, nNew: int, nTried: int, nBuckets: nat, news: seq<Saved>, tried: seq<Saved>,
                         rows: seq<seq<int>>)

  function Save(x: Info): Saved {
    Saved(Address(x.service, x.time, x.services), x.source, x.lastSuccess, x.attempts)
  }

  function Load(v: Saved, pos: nat, inTried: bool): Info {
    Info(v.address.service, v.address.time, v.address.services, v.source, 0, 0, v.lastSuccess, v.attempts, 0, inTried,
         pos)
  }

  ghost predicate AllIn(s: seq<int>, info: map<int, Info>) {
    forall k :: 0 <= k < |s| ==> s[k] in info
  }

  /** The tried or the other entries, in order. */
  ghost function Filter(info: map<int, Info>, order: seq<int>, inTried: bool): (r: seq<int>)
    requires AllIn(order, info)
  {
    if order == [] then []
    else
      var n := |order| - 1;
      Filter(info, order[..n], inTried) + if info[order[n]].inTried == inTried then [order[n]] else []
  }

  lemma {:induction false} FilterIn(info: map<int, Info>, order: seq<int>, b: bool)
    requires AllIn(order, info) && Distinct(order)
    ensures forall x :: x in Filter(info, order, b) <==> x in order && info[x].inTried == b
    ensures Distinct(Filter(info, order, b))
    ensures forall k :: 0 <= k < |Filter(info, order, b)| ==>
              var x := Filter(info, order, b)[k]; x in info && info[x].inTried == b
  {
    if order != [] {
      var n := |order| - 1;
      FilterIn(info, order[..n], b);
      assert order == order[..n] + [order[n]];
      assert order[n] !in order[..n];
    }
  }

  /** Where x is in ids. */
  ghost function IndexOf(ids: seq<int>, x: int): (k: nat)
    ensures x in ids ==> k < |ids| && ids[k] == x
  {
    if ids == [] || ids[|ids| - 1] == x then if ids == [] then 0 else |ids| - 1
    else IndexOf(ids[..|ids| - 1], x)
  }

  lemma IndexIs(ids: seq<int>, k: nat)
    requires Distinct(ids) && k < |ids|
    ensures IndexOf(ids, ids[k]) == k
  {
  }

  /** The numbers of the entries in the first n slots of a bucket. */
  ghost function Row(vvNew: map<Slot, int>, ids: seq<int>, bucket: nat, n: nat): seq<int> {
    if n == 0 then []
    else
      Row(vvNew, ids, bucket, n - 1) +
      if Slot(bucket, n - 1) in vvNew then [IndexOf(ids, vvNew[Slot(bucket, n - 1)])] else []
  }

  /** ids lists all entries, those that are not tried first. */
  ghost predicate Lists(info: map<int, Info>, ids: seq<int>, nNew: nat) {
    && Distinct(ids) && nNew <= |ids|
    && (forall k :: 0 <= k < |ids| ==> ids[k] in info && (info[ids[k]].inTried <==> k >= nNew))
    && (forall i :: i in info ==> i in ids)
  }

  /** The file describes the tables, with ids as the entries' numbers. */
  ghost predicate Describes(p: Peers, key: Hashes, info: map<int, Info>, vvNew: map<Slot, int>, ids: seq<int>) {
    && p.key == key && p.nNew == |p.news| && p.nTried == |p.tried| && p.nBuckets == |p.rows| == NEW_BUCKET_COUNT
    && Lists(info, ids, |p.news|) && |ids| == |p.news| + |p.tried|
    && (forall k :: 0 <= k < |ids| ==> (p.news + p.tried)[k] == Save(info[ids[k]]))
    && (forall b :: 0 <= b < NEW_BUCKET_COUNT ==> p.rows[b] == Row(vvNew, ids, b, BUCKET_SIZE))
  }

  /** The numbers so far ascend, and what is left comes after them. */
  ghost predicate Ascends(order: seq<int>, rest: set<int>) {
    && (forall i, j :: 0 <= i < j < |order| ==> order[i] < order[j])
    && (forall i, x :: 0 <= i < |order| && x in rest ==> order[i] < x)
  }

  lemma AscendsFurther(order: seq<int>, rest: set<int>, id: int)
    requires Ascends(order, rest) && id in rest && forall x :: x in rest ==> id <= x
    ensures Ascends(order + [id], rest - {id})
  {
  }

  /** The numbers in ascending order, as a map is walked through. */
  method InOrder(info: map<int, Info>) returns (order: seq<int>)
    ensures AllIn(order, info) && Distinct(order)
    ensures forall i :: i in info ==> i in order
  {
    order := [];
    var rest := info.Keys;
    while rest != {}
      invariant rest <= info.Keys && AllIn(order, info)
      invariant forall i :: i in info ==> i in order || i in rest
      invariant Ascends(order, rest)
      decreases |rest|
    {
      ghost var least := LeastExists(rest);
      var id :| id in rest && forall x :: x in rest ==> id <= x;
      AscendsFurther(order, rest, id);
      order, rest := order + [id], rest - {id};
    }
  }

  ghost function Side(info: map<int, Info>, inTried: bool): set<int> {
    if inTried then Tried(info) else Untried(info)
  }

  /** Fewer entries of a kind have been seen than there are, as long as one more comes. */
  lemma Room(info: map<int, Info>, order: seq<int>, j: nat, b: bool)
    requires AllIn(order, info) && Distinct(order) && j < |order| && info[order[j]].inTried == b
    ensures |Filter(info, order[..j], b)| < |Side(info, b)|
  {
    var seen := order[..j + 1];
    assert seen[..j] == order[..j];
    var list := Filter(info, seen, b);
    FilterIn(info, seen, b);
    var keys := set x | x in list;
    EnumerationSize(list, keys);
    SubsetSize(keys, Side(info, b));
  }

  lemma FilterSize(info: map<int, Info>, order: seq<int>, b: bool)
    requires AllIn(order, info) && Distinct(order) && forall i :: i in info ==> i in order
    ensures |Filter(info, order, b)| == |Side(info, b)|
  {
    FilterIn(info, order, b);
    forall x
      ensures x in Side(info, b) <==> x in Filter(info, order, b)
    {
      assert x in Side(info, b) ==> x in order && info[x].inTried == b;
    }
    EnumerationSize(Filter(info, order, b), Side(info, b));
  }

  ghost predicate SavedAs(info: map<int, Info>, ids: seq<int>, saved: seq<Saved>) {
    |saved| == |ids| && forall k :: 0 <= k < |ids| ==> ids[k] in info && saved[k] == Save(info[ids[k]])
  }

  ghost predicate Written(info: map<int, Info>, seen: seq<int>, inTried: bool, saved: seq<Saved>,
                          numbers: map<int, nat>)
    requires AllIn(seen, info)
  {
    && SavedAs(info, Filter(info, seen, inTried), saved)
    && forall k :: 0 <= k < |saved| ==> var id := Filter(info, seen, inTried)[k]; id in numbers && numbers[id] == k
  }

  lemma WroteOne(info: map<int, Info>, order: seq<int>, j: nat, inTried: bool, saved: seq<Saved>,
                 numbers: map<int, nat>)
    requires AllIn(order, info) && Distinct(order) && j < |order| && Written(info, order[..j], inTried, saved, numbers)
    ensures var id := order[j];
            Written(info, order[..j + 1], inTried,
                    if info[id].inTried == inTried then saved + [Save(info[id])] else saved, numbers[id := |saved|])
  {
    FilterStep(info, order, j, inTried);
    NotYet(info, order, j, inTried);
  }

  lemma NotYet(info: map<int, Info>, order: seq<int>, j: nat, b: bool)
    requires AllIn(order, info) && Distinct(order) && j < |order|
    ensures forall k :: 0 <= k < |Filter(info, order[..j], b)| ==> Filter(info, order[..j], b)[k] != order[j]
  {
    FilterIn(info, order[..j], b);
    assert order[j] !in order[..j];
  }

  lemma FilterStep(info: map<int, Info>, order: seq<int>, j: nat, b: bool)
    requires AllIn(order, info) && j < |order|
    ensures Filter(info, order[..j + 1], b) ==
            Filter(info, order[..j], b) + if info[order[j]].inTried == b then [order[j]] else []
  {
    var seen := order[..j + 1];
    assert seen[..j] == order[..j] && seen[j] == order[j];
  }

  method WriteOne(info: map<int, Info>, order: seq<int>, j: nat, inTried: bool, count: int, saved: seq<Saved>,
                  numbers: map<int, nat>)
    returns (saved': seq<Saved>, numbers': map<int, nat>)
    requires AllIn(order, info) && Distinct(order) && j < |order| && count == |Side(info, inTried)|
    requires Written(info, order[..j], inTried, saved, numbers)
    ensures Written(info, order[..j + 1], inTried, saved', numbers')
  {
    var id := order[j];
    WroteOne(info, order, j, inTried, saved, numbers);
    if info[id].inTried == inTried {
      Room(info, order, j, inTried);
      assert |saved| != count;
    }
    numbers' := numbers[id := |saved|];
    saved' := if info[id].inTried == inTried then saved + [Save(info[id])] else saved;
  }

  /** Writes the entries of one kind; the counter is never too small. */
  method WriteEntries(info: map<int, Info>, order: seq<int>, inTried: bool, count: int)
    returns (saved: seq<Saved>, numbers: map<int, nat>)
    requires AllIn(order, info) && Distinct(order) && count == |Side(info, inTried)|
    ensures SavedAs(info, Filter(info, order, inTried), saved)
    ensures forall k :: 0 <= k < |saved| ==>
              var id := Filter(info, order, inTried)[k]; id in numbers && numbers[id] == k
  {
    saved, numbers := [], map[];
    var j := 0;
    while j < |order|
      invariant 0 <= j <= |order| && AllIn(order[..j], info)
      invariant Written(info, order[..j], inTried, saved, numbers)
    {
      saved, numbers := WriteOne(info, order, j, inTried, count, saved, numbers);
      j := j + 1;
    }
    assert order[..j] == order;
  }

  ghost predicate Numbered(vvNew: map<Slot, int>, numbers: map<int, nat>, ids: seq<int>) {
    forall s :: s in vvNew ==> vvNew[s] in numbers && numbers[vvNew[s]] == IndexOf(ids, vvNew[s])
  }

  method WriteRow(vvNew: map<Slot, int>, numbers: map<int, nat>, ghost ids: seq<int>, bucket: nat)
    returns (row: seq<int>)
    requires Numbered(vvNew, numbers, ids)
    ensures row == Row(vvNew, ids, bucket, BUCKET_SIZE)
  {
    row := [];
    var i := 0;
    while i < BUCKET_SIZE
      invariant 0 <= i <= BUCKET_SIZE && row == Row(vvNew, ids, bucket, i)
    {
      var s := Slot(bucket, i);
      if s in vvNew {
        row := row + [numbers[vvNew[s]]];
      }
      i := i + 1;
    }
  }

  method WriteRows(vvNew: map<Slot, int>, numbers: map<int, nat>, ghost ids: seq<int>) returns (rows: seq<seq<int>>)
    requires Numbered(vvNew, numbers, ids)
    ensures |rows| == NEW_BUCKET_COUNT
    ensures forall b :: 0 <= b < NEW_BUCKET_COUNT ==> rows[b] == Row(vvNew, ids, b, BUCKET_SIZE)
  {
    rows := [];
    var bucket := 0;
    while bucket < NEW_BUCKET_COUNT
      invariant 0 <= bucket <= NEW_BUCKET_COUNT && |rows| == bucket
      invariant forall b :: 0 <= b < bucket ==> rows[b] == Row(vvNew, ids, b, BUCKET_SIZE)
    {
      var row := WriteRow(vvNew, numbers, ids, bucket);
      rows, bucket := rows + [row], bucket + 1;
    }
  }

  lemma ListsAll(info: map<int, Info>, order: seq<int>)
    requires AllIn(order, info) && Distinct(order) && forall i :: i in info ==> i in order
    ensures var news := Filter(info, order, false); Lists(info, news + Filter(info, order, true), |news|)
  {
    FilterIn(info, order, false);
    FilterIn(info, order, true);
    var news, trieds := Filter(info, order, false), Filter(info, order, true);
    var ids := news + trieds;
    forall i, j | 0 <= i < j < |ids|
      ensures ids[i] != ids[j]
    {
      assert ids[i] in news || ids[i] in trieds;
      assert j >= |news| ==> ids[j] in trieds;
      assert i < |news| ==> ids[i] in news;
    }
    forall k | 0 <= k < |ids|
      ensures ids[k] in info && (info[ids[k]].inTried <==> k >= |news|)
    {
      assert ids[k] == if k < |news| then news[k] else trieds[k - |news|];
    }
  }

  lemma SavedTogether(info: map<int, Info>, newIds: seq<int>, triedIds: seq<int>, news: seq<Saved>, trieds: seq<Saved>)
    requires SavedAs(info, newIds, news) && SavedAs(info, triedIds, trieds)
    ensures SavedAs(info, newIds + triedIds, news + trieds)
  {
  }

  lemma NumbersFit(info: map<int, Info>, vvNew: map<Slot, int>, order: seq<int>, numbers: map<int, nat>)
    requires AllIn(order, info) && Distinct(order) && forall i :: i in info ==> i in order
    requires forall s :: s in vvNew ==> vvNew[s] in Untried(info)
    requires var newIds := Filter(info, order, false);
             forall k :: 0 <= k < |newIds| ==> newIds[k] in numbers && numbers[newIds[k]] == k
    ensures Numbered(vvNew, numbers, Filter(info, order, false) + Filter(info, order, true))
  {
    var newIds := Filter(info, order, false);
    var ids := newIds + Filter(info, order, true);
    ListsAll(info, order);
    FilterIn(info, order, false);
    forall s | s in vvNew
      ensures vvNew[s] in numbers && numbers[vvNew[s]] == IndexOf(ids, vvNew[s])
    {
      assert vvNew[s] in newIds;
      var k :| 0 <= k < |newIds| && newIds[k] == vvNew[s];
      assert ids[k] == newIds[k];
      IndexIs(ids, k);
    }
  }

  /** Writes the whole address manager; both counters agree with what is written. */
  method Serialize(m: AddrManager) returns (p: Peers, ghost ids: seq<int>)
    requires m.Valid()
    ensures Describes(p, m.h, m.mapInfo, m.vvNew, ids)
    ensures p.nNew == |p.news| == |Untried(m.mapInfo)| && p.nTried == |p.tried| == |Tried(m.mapInfo)|
  {
    var order := InOrder(m.mapInfo);
    m.CheckCounts();
    var news, numbers := WriteEntries(m.mapInfo, order, false, m.nNew);
    var trieds, others := WriteEntries(m.mapInfo, order, true, m.nTried);
    ListsAll(m.mapInfo, order);
    FilterSize(m.mapInfo, order, false);
    FilterSize(m.mapInfo, order, true);
    ids := Filter(m.mapInfo, order, false) + Filter(m.mapInfo, order, true);
    forall s | s in m.vvNew
      ensures m.vvNew[s] in Untried(m.mapInfo)
    {
      assert m.vvNew[s] in m.vvNew.Values;
    }
    NumbersFit(m.mapInfo, m.vvNew, order, numbers);
    var rows := WriteRows(m.vvNew, numbers, ids);
    p := Peers(m.h, m.nNew, m.nTried, NEW_BUCKET_COUNT, news, trieds, rows);
    SavedTogether(m.mapInfo, Filter(m.mapInfo, order, false), Filter(m.mapInfo, order, true), news, trieds);
  }
}
