/** Block locators: a short list of ancestors by which two nodes find where their chains part (src/chain.cpp,
    src/main.cpp). */
module Locator {
  import opened Tree
  import opened SkipList
  import opened Chain
  import opened Numerals

  function NextHeight(h: nat, step: nat): nat {
    if h > step then h - step else 0
  }

  /** The step doubles once there are more than ten entries. */
  function NextStep(step: nat, count: nat): (s: nat)
    ensures step > 0 ==> s > 0
  {
    if count > 10 then 2 * step else step
  }

  /** The heights of a locator from height h on, when count entries are already in it. */
  function Heights(h: nat, step: nat, count: nat): (r: seq<nat>)
    requires step > 0
    decreases h
  {
    if h == 0 then [0]
    else [h] + Heights(NextHeight(h, step), NextStep(step, count + 1), count + 1)
  }

  lemma {:induction false} HeightsShape(h: nat, step: nat, count: nat)
    requires step > 0
    ensures var r := Heights(h, step, count);
            && |r| > 0 && r[0] == h && r[|r| - 1] == 0
            && forall i, j :: 0 <= i < j < |r| ==> r[i] > r[j]
    decreases h
  {
    if h > 0 {
      HeightsShape(NextHeight(h, step), NextStep(step, count + 1), count + 1);
    }
  }

  function Log2(n: nat): nat {
    if n < 2 then 0 else 1 + Log2(n / 2)
  }

  lemma {:induction false} Log2Bound(k: nat, n: nat)
    requires Pow2(k) <= n
    ensures k <= Log2(n)
    decreases k
  {
    if k > 0 {
      Log2Bound(k - 1, n / 2);
    }
  }

  /** Depth and step after count entries, before the end is reached. */
  predicate OnSchedule(depth: nat, step: nat, count: nat) {
    if count <= 10 then depth == count && step == 1 else depth == 9 + Pow2(count - 10) && step == Pow2(count - 10)
  }

  lemma NextOnSchedule(depth: nat, step: nat, count: nat)
    requires OnSchedule(depth, step, count)
    ensures OnSchedule(depth + step, NextStep(step, count + 1), count + 1)
    ensures step <= depth + 1
  {
    if count == 10 {
      assert Pow2(1) == 2;
    }
  }

  /** Twelve entries, and one more for every doubling of the height. */
  lemma {:induction false} LengthFrom(n: nat, h: nat, step: nat, count: nat)
    requires n >= 1 && h <= n && step > 0
    requires h > 0 ==> OnSchedule(n - h, step, count)
    requires count >= 12 ==> Pow2(count - 11) <= n
    ensures count + |Heights(h, step, count)| <= 12 + Log2(n)
    decreases h
  {
    if h == 0 {
      if count >= 12 {
        Log2Bound(count - 11, n);
      }
    } else {
      NextOnSchedule(n - h, step, count);
      LengthFrom(n, NextHeight(h, step), NextStep(step, count + 1), count + 1);
    }
  }

  lemma LengthBound(n: nat)
    requires n >= 1
    ensures |Heights(n, 1, 0)| <= 12 + Log2(n)
  {
    LengthFrom(n, n, 1, 0);
  }

  /** The first height that is at most f. */
  function FirstAtMost(r: seq<nat>, f: nat): nat
    requires |r| > 0 && r[|r| - 1] <= f
  {
    if r[0] <= f then r[0] else FirstAtMost(r[1..], f)
  }

  lemma {:induction false} FirstFrom(n: nat, h: nat, step: nat, count: nat, f: nat)
    requires f < h <= n && step > 0 && OnSchedule(n - h, step, count)
    ensures var r := Heights(h, step, count); r[|r| - 1] <= f
    ensures var first := FirstAtMost(Heights(h, step, count), f);
            && first <= f && n - first <= 2 * (n - f)
            && (n - f <= 11 ==> first == f)
    decreases h
  {
    NextOnSchedule(n - h, step, count);
    var h', step' := NextHeight(h, step), NextStep(step, count + 1);
    HeightsShape(h, step, count);
    HeightsShape(h', step', count + 1);
    assert Heights(h, step, count)[1..] == Heights(h', step', count + 1);
    if h' > f {
      FirstFrom(n, h', step', count + 1, f);
    }
  }

  /** Of two chains that share heights 0 to f, the first shared entry is not far below f. */
  lemma FirstShared(n: nat, f: nat)
    requires f <= n
    ensures var r := Heights(n, 1, 0); r[|r| - 1] <= f
    ensures var first := FirstAtMost(Heights(n, 1, 0), f);
            && first <= f && n - first <= 2 * (n - f)
            && (n - f <= 11 ==> first == f)
  {
    HeightsShape(n, 1, 0);
    if f < n {
      FirstFrom(n, n, 1, 0, f);
    }
  }

  /** The blocks of a path at the given heights. */
  ghost predicate Picks(p: seq<int>, heights: seq<nat>, blocks: seq<int>) {
    |blocks| == |heights| && forall i :: 0 <= i < |heights| ==> heights[i] < |p| && blocks[i] == p[heights[i]]
  }

  /** One step down, by the vector if the block is in the chain and by the skip list if not. */
  method Below(index: BlockIndex, chain: ActiveChain, b: int, height: nat) returns (a: int)
    requires index.Valid() && chain.Valid(index.tree) && b in index.tree && height <= index.tree[b].height
    ensures a == Path(index.tree, b)[height] && a in index.tree && index.tree[a].height == height
  {
    PathAt(index.tree, b, height);
    if chain.Contains(index.tree, b) {
      ghost var tip := chain.vChain[|chain.vChain| - 1].b;
      AgreeBelow(index.tree, tip, b, index.tree[b].height);
      return chain.At(height).b;
    }
    var found;
    found, a := index.GetAncestor(b, height);
  }

  lemma MoreHeights(done: seq<nat>, h: nat, step: nat, count: nat)
    requires step > 0 && h > 0
    ensures done + Heights(h, step, count) == done + [h] +
              Heights(NextHeight(h, step), NextStep(step, count + 1), count + 1)
  {
  }

  lemma PickMore(p: seq<int>, heights: seq<nat>, blocks: seq<int>, h: nat, b: int)
    requires Picks(p, heights, blocks) && h < |p| && p[h] == b
    ensures Picks(p, heights + [h], blocks + [b])
  {
  }

  /** One step down the path to b. */
  method StepDown(index: BlockIndex, chain: ActiveChain, b: int, at: int, h: nat, height: nat) returns (a: int)
    requires index.Valid() && chain.Valid(index.tree) && b in index.tree
    requires height <= h <= index.tree[b].height && at == Path(index.tree, b)[h]
    ensures a == Path(index.tree, b)[height]
  {
    PathAt(index.tree, b, h);
    a := Below(index, chain, at, height);
    assert Path(index.tree, at)[height] == Path(index.tree, b)[..h + 1][height];
  }

  /** The blocks at the locator's heights on the path to b. */
  method LocatorOf(index: BlockIndex, chain: ActiveChain, b: int) returns (have: seq<int>)
    requires index.Valid() && chain.Valid(index.tree) && b in index.tree
    ensures Picks(Path(index.tree, b), Heights(index.tree[b].height, 1, 0), have)
  {
    have := [];
    var step: nat := 1;
    var at := b;
    var h: nat := index.tree[b].height;
    ghost var top: nat, p := h, Path(index.tree, b);
    ghost var done: seq<nat> := [];
    while h > 0
      invariant step > 0 && h <= top && at == p[h]
      invariant Heights(top, 1, 0) == done + Heights(h, step, |have|)
      invariant Picks(p, done, have)
      decreases h
    {
      MoreHeights(done, h, step, |have|);
      PickMore(p, done, have, h, at);
      var next := NextHeight(h, step);
      have, done := have + [at], done + [h];
      at := StepDown(index, chain, b, at, h, next);
      h, step := next, NextStep(step, |have|);
    }
    assert Heights(h, step, |have|) == [0];
    PickMore(p, done, have, 0, at);
    have := have + [at];
  }

  /** The locator of a block, by default of the tip. */
  method GetLocator(index: BlockIndex, chain: ActiveChain, e: Entry) returns (have: seq<int>)
    requires index.Valid() && chain.Valid(index.tree) && (e.Block? ==> e.b in index.tree)
    ensures e.Null? && chain.vChain == [] ==> have == []
    ensures var b := if e.Block? then e else chain.At(chain.Height());
            b.Block? ==> b.b in index.tree && Picks(Path(index.tree, b.b), Heights(index.tree[b.b].height, 1, 0), have)
  {
    var start := if e.Block? then e else chain.At(chain.Height());
    if start.Null? {
      return [];
    }
    have := LocatorOf(index, chain, start.b);
  }

  ghost predicate InChain(t: Forest, known: set<int>, chain: ActiveChain, b: int)
    reads chain
    requires known <= t.Keys
  {
    b in known && chain.Contains(t, b)
  }

  /** The first entry that the receiver knows and has in its chain, or its genesis block. */
  ghost function FirstKnown(t: Forest, known: set<int>, chain: ActiveChain, locator: seq<int>): Entry
    reads chain
    requires known <= t.Keys
  {
    if locator == [] then chain.At(0)
    else if InChain(t, known, chain, locator[0]) then Block(locator[0])
    else FirstKnown(t, known, chain, locator[1..])
  }

  method FindForkInGlobalIndex(t: Forest, known: set<int>, chain: ActiveChain, locator: seq<int>) returns (fork: Entry)
    requires known <= t.Keys
    ensures fork == FirstKnown(t, known, chain, locator)
  {
    var i := 0;
    while i < |locator|
      invariant 0 <= i <= |locator|
      invariant FirstKnown(t, known, chain, locator) == FirstKnown(t, known, chain, locator[i..])
    {
      assert locator[i..][1..] == locator[i + 1..];
      if locator[i] in known && chain.Contains(t, locator[i]) {
        return Block(locator[i]);
      }
      i := i + 1;
    }
    return chain.At(0);
  }

  /** Where that entry is. */
  lemma {:induction false} FirstKnownAt(t: Forest, known: set<int>, chain: ActiveChain, locator: seq<int>, last: nat)
    returns (at: nat)
    requires known <= t.Keys && last < |locator| && InChain(t, known, chain, locator[last])
    ensures at <= last && (forall j :: 0 <= j < at ==> !InChain(t, known, chain, locator[j]))
    ensures InChain(t, known, chain, locator[at]) && FirstKnown(t, known, chain, locator) == Block(locator[at])
  {
    if InChain(t, known, chain, locator[0]) {
      at := 0;
    } else {
      var k := FirstKnownAt(t, known, chain, locator[1..], last - 1);
      at := k + 1;
      forall j | 0 <= j < at
        ensures !InChain(t, known, chain, locator[j])
      {
        assert j > 0 ==> locator[j] == locator[1..][j - 1];
      }
    }
  }

  /** The chain shares heights 0 to f with the path to b, and nothing above. */
  ghost predicate SharesTo(t: Forest, v: seq<Entry>, b: int, f: nat)
    requires Wf(t) && b in t
  {
    && f <= t[b].height
    && forall k :: 0 <= k <= t[b].height ==> (k < |v| && v[k] == Block(Path(t, b)[k]) <==> k <= f)
  }

  lemma {:induction false} FirstIsAt(r: seq<nat>, f: nat, at: nat)
    requires at < |r| && r[at] <= f && r[|r| - 1] <= f && forall j :: 0 <= j < at ==> r[j] > f
    ensures FirstAtMost(r, f) == r[at]
  {
    if at > 0 {
      FirstIsAt(r[1..], f, at - 1);
    }
  }

  /** An entry is in the receiver's chain exactly if its height is shared. */
  lemma EntryIsShared(t: Forest, known: set<int>, chain: ActiveChain, b: int, f: nat, have: seq<int>, j: nat)
    requires Wf(t) && known <= t.Keys && b in t && SharesTo(t, chain.vChain, b, f)
    requires forall k :: 0 <= k < |chain.vChain| ==> chain.vChain[k].Block? && chain.vChain[k].b in known
    requires var heights := Heights(t[b].height, 1, 0); Picks(Path(t, b), heights, have) && j < |heights|
    ensures InChain(t, known, chain, have[j]) <==> Heights(t[b].height, 1, 0)[j] <= f
  {
    PathHeights(t, b);
  }

  /**
   * A node sends the locator of b; another node that shares exactly heights 0 to f with it answers with a shared block
   * that is at most twice as deep as the fork, and with the fork itself if that is at most 11 blocks deep.
   */
  method Sync(index: BlockIndex, sender: ActiveChain, b: int, receiver: ActiveChain, known: set<int>, ghost f: nat)
    returns (fork: Entry)
    requires index.Valid() && sender.Valid(index.tree) && b in index.tree && known <= index.tree.Keys
    requires forall k :: 0 <= k < |receiver.vChain| ==> receiver.vChain[k].Block? && receiver.vChain[k].b in known
    requires SharesTo(index.tree, receiver.vChain, b, f)
    ensures exists r: nat :: r <= f && fork == Block(Path(index.tree, b)[r]) && ForkIsNear(index.tree[b].height, f, r)
  {
    var have := GetLocator(index, sender, Block(b));
    fork := FindForkInGlobalIndex(index.tree, known, receiver, have);
    ghost var r := SharedEntry(index.tree, known, receiver, b, f, have);
  }

  /** From a block at height n: at most twice as deep as the fork at f, and the fork itself if that is at most 11
      deep. */
  predicate ForkIsNear(n: nat, f: nat, r: nat) {
    n - r <= 2 * (n - f) && (n - f <= 11 ==> r == f)
  }

  lemma SharedEntry(t: Forest, known: set<int>, chain: ActiveChain, b: int, f: nat, have: seq<int>) returns (r: nat)
    requires Wf(t) && known <= t.Keys && b in t && SharesTo(t, chain.vChain, b, f)
    requires forall k :: 0 <= k < |chain.vChain| ==> chain.vChain[k].Block? && chain.vChain[k].b in known
    requires Picks(Path(t, b), Heights(t[b].height, 1, 0), have)
    ensures r <= f && FirstKnown(t, known, chain, have) == Block(Path(t, b)[r]) && ForkIsNear(t[b].height, f, r)
  {
    var n := t[b].height;
    var heights := Heights(n, 1, 0);
    HeightsShape(n, 1, 0);
    forall j | 0 <= j < |heights|
      ensures InChain(t, known, chain, have[j]) <==> heights[j] <= f
    {
      EntryIsShared(t, known, chain, b, f, have, j);
    }
    var at := FirstKnownAt(t, known, chain, have, |heights| - 1);
    FirstIsAt(heights, f, at);
    FirstShared(n, f);
    r := heights[at];
  }
}
