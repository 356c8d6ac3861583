/** Block times: the median of the last eleven, and what a new block's time is checked against (src/chain.cpp,
    src/main.cpp, src/consensus/params.h). */
module BlockTime {
  import opened Tree

  const MEDIAN_TIME_SPAN: nat := 11

  function Insert(x: int, s: seq<int>): seq<int> {
    if s == [] || x <= s[0] then [x] + s else [s[0]] + Insert(x, s[1..])
  }

  function Sort(s: seq<int>): (r: seq<int>)
    ensures |r| == |s|
  {
    if s == [] then [] else
      var r := Insert(s[0], Sort(s[1..]));
      InsertSize(s[0], Sort(s[1..]));
      r
  }

  lemma {:induction false} InsertSize(x: int, s: seq<int>)
    ensures |Insert(x, s)| == |s| + 1
  {
    if s != [] && x > s[0] {
      InsertSize(x, s[1..]);
    }
  }

  predicate Sorted(s: seq<int>) {
    forall i, j :: 0 <= i < j < |s| ==> s[i] <= s[j]
  }

  lemma {:induction false} InsertBag(x: int, s: seq<int>)
    ensures multiset(Insert(x, s)) == multiset(s) + multiset{x}
  {
    if s != [] && x > s[0] {
      InsertBag(x, s[1..]);
      assert s == [s[0]] + s[1..];
    }
  }

  lemma {:induction false} InsertAbove(x: int, s: seq<int>, low: int)
    requires x >= low && forall i :: 0 <= i < |s| ==> s[i] >= low
    ensures forall i :: 0 <= i < |Insert(x, s)| ==> Insert(x, s)[i] >= low
  {
    if s != [] && x > s[0] {
      InsertAbove(x, s[1..], low);
    }
  }

  lemma {:induction false} InsertSorts(x: int, s: seq<int>)
    requires Sorted(s)
    ensures Sorted(Insert(x, s))
  {
    if s != [] && x > s[0] {
      InsertSorts(x, s[1..]);
      InsertAbove(x, s[1..], s[0]);
    }
  }

  lemma {:induction false} SortSorts(s: seq<int>)
    ensures Sorted(Sort(s)) && multiset(Sort(s)) == multiset(s)
  {
    if s != [] {
      SortSorts(s[1..]);
      InsertSorts(s[0], Sort(s[1..]));
      InsertBag(s[0], Sort(s[1..]));
      assert s == [s[0]] + s[1..];
    }
  }

  /** How many values are below m. */
  function CountBelow(s: seq<int>, m: int): (c: nat)
    ensures c <= |s|
  {
    if s == [] then 0 else (if s[0] < m then 1 else 0) + CountBelow(s[1..], m)
  }

  lemma {:induction false} CountAppend(a: seq<int>, b: seq<int>, m: int)
    ensures CountBelow(a + b, m) == CountBelow(a, m) + CountBelow(b, m)
  {
    if a == [] {
      assert a + b == b;
    } else {
      assert (a + b)[1..] == a[1..] + b;
      CountAppend(a[1..], b, m);
    }
  }

  lemma {:induction false} CountInsert(x: int, s: seq<int>, m: int)
    ensures CountBelow(Insert(x, s), m) == CountBelow([x] + s, m)
  {
    assert ([x] + s)[1..] == s;
    if s != [] && x > s[0] {
      CountInsert(x, s[1..], m);
      assert ([s[0]] + Insert(x, s[1..]))[1..] == Insert(x, s[1..]);
      assert ([x] + s[1..])[1..] == s[1..];
    }
  }

  lemma {:induction false} CountSort(s: seq<int>, m: int)
    ensures CountBelow(Sort(s), m) == CountBelow(s, m)
  {
    if s != [] {
      CountSort(s[1..], m);
      CountInsert(s[0], Sort(s[1..]), m);
      assert ([s[0]] + Sort(s[1..]))[1..] == Sort(s[1..]);
    }
  }

  /** In a sorted sequence the value at k is at least m exactly if at most k values are below m. */
  lemma {:induction false} OrderStatistic(s: seq<int>, k: nat, m: int)
    requires Sorted(s) && k < |s|
    ensures s[k] >= m <==> CountBelow(s, m) <= k
  {
    if s[0] >= m {
      NoneBelow(s, m);
    } else if k > 0 {
      OrderStatistic(s[1..], k - 1, m);
    }
  }

  lemma {:induction false} NoneBelow(s: seq<int>, m: int)
    requires forall i :: 0 <= i < |s| ==> s[i] >= m
    ensures CountBelow(s, m) == 0
  {
    if s != [] {
      NoneBelow(s[1..], m);
    }
  }

  function Median(s: seq<int>): int
    requires s != []
  {
    Sort(s)[|s| / 2]
  }

  lemma MedianAtLeast(s: seq<int>, m: int)
    requires s != []
    ensures Median(s) >= m <==> CountBelow(s, m) <= |s| / 2
  {
    SortSorts(s);
    CountSort(s, m);
    OrderStatistic(Sort(s), |s| / 2, m);
  }

  /** The last times, oldest first: eleven of them, or all. */
  function LastTimes(times: seq<int>): (w: seq<int>)
    ensures times != [] ==> w != []
  {
    if |times| <= MEDIAN_TIME_SPAN then times else times[|times| - MEDIAN_TIME_SPAN..]
  }

  /** A time above the median never brings the median down, however short the chain. */
  lemma MedianNeverDecreases(times: seq<int>, x: int)
    requires times != [] && x > Median(LastTimes(times))
    ensures Median(LastTimes(times + [x])) >= Median(LastTimes(times))
  {
    var w, w' := LastTimes(times), LastTimes(times + [x]);
    var m := Median(w);
    MedianAtLeast(w, m);
    var kept := if |times| < MEDIAN_TIME_SPAN then w else w[1..];
    assert w' == kept + [x];
    CountAppend(kept, [x], m);
    assert CountBelow([x], m) == 0;
    MedianAtLeast(w', m);
  }

  /** The times along the path to b. */
  ghost function Times(t: Forest, time: map<int, int>, b: int): (r: seq<int>)
    requires Wf(t) && b in t && t.Keys <= time.Keys
    ensures |r| == t[b].height + 1
    decreases t[b].height
  {
    assert ParentOk(t, b);
    if t[b].height == 0 then [time[b]] else Times(t, time, t[b].prev) + [time[b]]
  }

  /** Collects at most eleven times backwards, sorts them and takes the one in the middle. */
  method GetMedianTimePast(t: Forest, time: map<int, int>, b: int) returns (median: int)
    requires Wf(t) && b in t && t.Keys <= time.Keys
    ensures median == Median(LastTimes(Times(t, time, b)))
  {
    var list: seq<int> := [];
    var walk, more := b, true;
    ghost var all := Times(t, time, b);
    while more && |list| < MEDIAN_TIME_SPAN
      invariant |list| <= MEDIAN_TIME_SPAN
      invariant more ==> walk in t && all == Times(t, time, walk) + list
      invariant !more ==> all == list
      decreases more, if more && walk in t then t[walk].height else 0
    {
      assert ParentOk(t, walk);
      list := [time[walk]] + list;
      if t[walk].height == 0 {
        more := false;
      } else {
        walk := t[walk].prev;
      }
    }
    assert list == LastTimes(all);
    return Sort(list)[|list| / 2];
  }

  /** The parameters of a network. Activation is by height. */
  datatype Params = Params(regTest: bool, startV2: int, lastPoW: int, driftPoW: int, driftPoS: int, slot: int)

  predicate IsTimeProtocolV2(c: Params, height: int) {
    height >= c.startV2
  }

  function FutureBlockTimeDrift(c: Params, height: int): int {
    if IsTimeProtocolV2(c, height) then c.slot - 1
    else if height > c.lastPoW then c.driftPoS else c.driftPoW
  }

  predicate IsValidBlockTimeStamp(c: Params, time: int, height: int)
    requires c.slot > 0
  {
    !IsTimeProtocolV2(c, height) || time % c.slot == 0
  }

  /** What the time of a block on top of prev has to exceed. */
  ghost function MinPast(c: Params, t: Forest, time: map<int, int>, prev: int): int
    requires Wf(t) && prev in t && t.Keys <= time.Keys
  {
    var height := t[prev].height + 1;
    if !IsTimeProtocolV2(c, height) then Median(LastTimes(Times(t, time, prev)))
    else if height == c.startV2 then time[prev] - FutureBlockTimeDrift(c, height - 1) + FutureBlockTimeDrift(c, height)
    else time[prev]
  }

  method MinPastBlockTime(c: Params, t: Forest, time: map<int, int>, prev: int) returns (min: int)
    requires Wf(t) && prev in t && t.Keys <= time.Keys
    ensures min == MinPast(c, t, time, prev)
  {
    var height := t[prev].height;
    if !IsTimeProtocolV2(c, height + 1) {
      min := GetMedianTimePast(t, time, prev);
      return;
    }
    if height + 1 == c.startV2 {
      return time[prev] - FutureBlockTimeDrift(c, height) + FutureBlockTimeDrift(c, height + 1);
    }
    return time[prev];
  }

  // ---- Accepting blocks ----

  /** The tree with a new block on top of prev. */
  ghost function WithBlock(t: Forest, n: int, prev: int, proof: int): (t': Forest)
    requires Wf(t) && prev in t && n !in t && proof > 0
    ensures Wf(t') && t'.Keys == t.Keys + {n}
  {
    WfGrows(t, n, Child(t, prev, proof));
    t[n := Child(t, prev, proof)]
  }

  /** A block above the genesis block whose time was accepted. */
  ghost predicate TimeChecked(c: Params, t: Forest, time: map<int, int>, b: int)
    requires Wf(t) && b in t && t.Keys <= time.Keys && c.slot > 0
  {
    assert ParentOk(t, b);
    t[b].height > 0 ==> time[b] > MinPast(c, t, time, t[b].prev) && IsValidBlockTimeStamp(c, time[b], t[b].height)
  }

  lemma {:induction false} TimesGrow(t: Forest, time: map<int, int>, b: int, n: int, prev: int, proof: int, x: int)
    requires Wf(t) && b in t && t.Keys <= time.Keys && prev in t && n !in t && proof > 0
    ensures Times(WithBlock(t, n, prev, proof), time[n := x], b) == Times(t, time, b)
    decreases t[b].height
  {
    assert ParentOk(t, b);
    if t[b].height > 0 {
      TimesGrow(t, time, t[b].prev, n, prev, proof, x);
    }
  }

  lemma CheckedGrows(c: Params, t: Forest, time: map<int, int>, b: int, n: int, prev: int, proof: int, x: int)
    requires Wf(t) && b in t && t.Keys <= time.Keys && prev in t && n !in t && proof > 0 && c.slot > 0
    ensures TimeChecked(c, WithBlock(t, n, prev, proof), time[n := x], b) <==> TimeChecked(c, t, time, b)
  {
    assert ParentOk(t, b);
    if t[b].height > 0 {
      TimesGrow(t, time, t[b].prev, n, prev, proof, x);
    }
  }

  lemma NewBlockChecked(c: Params, t: Forest, time: map<int, int>, n: int, prev: int, proof: int, x: int)
    requires Wf(t) && t.Keys <= time.Keys && prev in t && n !in t && proof > 0 && c.slot > 0
    ensures TimeChecked(c, WithBlock(t, n, prev, proof), time[n := x], n)
            <==> x > MinPast(c, t, time, prev) && IsValidBlockTimeStamp(c, x, t[prev].height + 1)
  {
    TimesGrow(t, time, prev, n, prev, proof, x);
  }

  datatype Verdict = Accepted | TooNew | TooOld | BadMask

  /** The checks in their order; none of them on a regression test network. A time that is not too
      far in the future is accepted exactly when the block passes in the tree it is added to. */
  method CheckBlockTime(c: Params, t: Forest, time: map<int, int>, prev: int, blockTime: int, now: int)
    returns (v: Verdict)
    requires Wf(t) && prev in t && t.Keys <= time.Keys && c.slot > 0
    ensures c.regTest ==> v == Accepted
    ensures v == TooNew <==> !c.regTest && blockTime > now + FutureBlockTimeDrift(c, t[prev].height + 1)
    ensures !c.regTest && v != TooNew ==>
              forall n, proof {:trigger WithBlock(t, n, prev, proof)} :: n !in t && proof > 0 ==>
                (v == Accepted <==> TimeChecked(c, WithBlock(t, n, prev, proof), time[n := blockTime], n))
    ensures v == TooOld && !IsTimeProtocolV2(c, t[prev].height + 1) ==>
              var w := LastTimes(Times(t, time, prev)); CountBelow(w, blockTime) <= |w| / 2
    ensures v == TooOld && t[prev].height + 1 > c.startV2 ==> blockTime <= time[prev]
    ensures v == BadMask ==> IsTimeProtocolV2(c, t[prev].height + 1) && blockTime % c.slot != 0
  {
    if c.regTest {
      return Accepted;
    }
    if blockTime > now + FutureBlockTimeDrift(c, t[prev].height + 1) {
      return TooNew;
    }
    forall n, proof | n !in t && proof > 0
      ensures TimeChecked(c, WithBlock(t, n, prev, proof), time[n := blockTime], n)
              <==> blockTime > MinPast(c, t, time, prev) && IsValidBlockTimeStamp(c, blockTime, t[prev].height + 1)
    {
      NewBlockChecked(c, t, time, n, prev, proof, blockTime);
    }
    var min := MinPastBlockTime(c, t, time, prev);
    if blockTime <= min {
      MedianAtLeast(LastTimes(Times(t, time, prev)), blockTime);
      return TooOld;
    }
    if !IsValidBlockTimeStamp(c, blockTime, t[prev].height + 1) {
      return BadMask;
    }
    return Accepted;
  }

  ghost predicate AllChecked(c: Params, t: Forest, time: map<int, int>)
    requires Wf(t) && t.Keys <= time.Keys && c.slot > 0
  {
    forall b {:trigger TimeChecked(c, t, time, b)} :: b in t ==> TimeChecked(c, t, time, b)
  }

  lemma AllCheckedGrows(c: Params, t: Forest, time: map<int, int>, n: int, prev: int, proof: int, x: int)
    requires Wf(t) && t.Keys <= time.Keys && prev in t && n !in t && proof > 0 && c.slot > 0
    requires AllChecked(c, t, time) && TimeChecked(c, WithBlock(t, n, prev, proof), time[n := x], n)
    ensures AllChecked(c, WithBlock(t, n, prev, proof), time[n := x])
  {
    var t', time' := WithBlock(t, n, prev, proof), time[n := x];
    forall b | b in t'
      ensures TimeChecked(c, t', time', b)
    {
      if b != n {
        CheckedGrows(c, t, time, b, n, prev, proof, x);
      }
    }
  }

  /** A header as it arrives, with the clock at that moment. */
  datatype Arrival = Arrival(hash: int, prev: int, proof: int, time: int, now: int)

  /** Headers accepted or refused one after the other, on top of the genesis block. However they
      arrive and whatever the clock says, every chain of the tree is checked. */
  method AcceptHeaders(c: Params, genesis: int, genesisTime: int, arrivals: seq<Arrival>)
    returns (t: Forest, time: map<int, int>)
    requires c.slot > 0 && !c.regTest && forall i :: 0 <= i < |arrivals| ==> arrivals[i].proof > 0
    ensures Wf(t) && t.Keys == time.Keys
    ensures forall b :: b in t ==> ChainChecked(c, t, time, b)
  {
    t := map[genesis := Node(0, 0, 0)];
    time := map[genesis := genesisTime];
    for i := 0 to |arrivals|
      invariant Wf(t) && t.Keys == time.Keys && AllChecked(c, t, time)
    {
      var a := arrivals[i];
      if a.hash !in t && a.prev in t {
        var v := CheckBlockTime(c, t, time, a.prev, a.time, a.now);
        if v == Accepted {
          AllCheckedGrows(c, t, time, a.hash, a.prev, a.proof, a.time);
          t, time := t[a.hash := Child(t, a.prev, a.proof)], time[a.hash := a.time];
        }
      }
    }
    forall b | b in t
      ensures ChainChecked(c, t, time, b)
    {
      CheckedUpTo(c, t, time, b);
    }
  }

  /** Every block of the path to b was checked. */
  ghost predicate ChainChecked(c: Params, t: Forest, time: map<int, int>, b: int)
    requires Wf(t) && b in t && t.Keys <= time.Keys && c.slot > 0
    decreases t[b].height
  {
    assert ParentOk(t, b);
    TimeChecked(c, t, time, b) && (t[b].height > 0 ==> ChainChecked(c, t, time, t[b].prev))
  }

  lemma {:induction false} CheckedUpTo(c: Params, t: Forest, time: map<int, int>, b: int)
    requires Wf(t) && b in t && t.Keys <= time.Keys && c.slot > 0 && AllChecked(c, t, time)
    ensures ChainChecked(c, t, time, b)
    decreases t[b].height
  {
    assert ParentOk(t, b) && TimeChecked(c, t, time, b);
    if t[b].height > 0 {
      CheckedUpTo(c, t, time, t[b].prev);
    }
  }

  /** Before the second time protocol, the median along a chain never decreases. */
  lemma {:induction false} MedianGrowsWithHeight(c: Params, t: Forest, time: map<int, int>, b: int, i: nat)
    requires Wf(t) && b in t && t.Keys <= time.Keys && c.slot > 0 && ChainChecked(c, t, time, b)
    requires i <= t[b].height < c.startV2
    ensures var a := Path(t, b)[i];
            a in t && Median(LastTimes(Times(t, time, a))) <= Median(LastTimes(Times(t, time, b)))
    decreases t[b].height
  {
    assert ParentOk(t, b);
    if i < t[b].height {
      MedianGrowsWithHeight(c, t, time, t[b].prev, i);
      MedianNeverDecreases(Times(t, time, t[b].prev), time[b]);
    }
  }

  /**
   * From the second time protocol on, every block is at least one time slot later than the one before; the first such
   * block may be earlier than its parent, but by less than the difference of the two allowed drifts.
   */
  lemma TimesIncreaseAfterV2(c: Params, t: Forest, time: map<int, int>, b: int)
    requires Wf(t) && b in t && t.Keys <= time.Keys && c.slot > 0 && ChainChecked(c, t, time, b)
    requires t[b].height > 0 && t[b].height >= c.startV2
    ensures t[b].prev in t && time[b] % c.slot == 0
    ensures t[b].height > c.startV2 && t[b].height > 1 ==> time[b] >= time[t[b].prev] + c.slot
    ensures t[b].height > c.startV2 ==> time[b] > time[t[b].prev]
    ensures t[b].height == c.startV2 ==>
              time[b] > time[t[b].prev] -
                        (FutureBlockTimeDrift(c, t[b].height - 1) - FutureBlockTimeDrift(c, t[b].height))
  {
    assert ParentOk(t, b);
    var a := t[b].prev;
    if t[b].height > c.startV2 && t[b].height > 1 {
      assert TimeChecked(c, t, time, a) && ParentOk(t, a);
      SlotsApart(time[a], time[b], c.slot);
    }
  }

  lemma SlotsApart(x: int, y: int, slot: int)
    requires slot > 0 && x % slot == 0 && y % slot == 0 && y > x
    ensures y >= x + slot
  {
    var d := y / slot - x / slot;
    assert y - x == slot * d;
    if d > 1 {
      assert slot * d == slot + slot * (d - 1);
    }
  }
}
