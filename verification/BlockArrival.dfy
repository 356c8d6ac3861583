/**
 * Block data that arrives in any order: which blocks are linked to the genesis block, and which wait in
 * mapBlocksUnlinked (src/main.cpp). The lemmas are about the maps before and after one step.
 */
module BlockArrival {
  import opened Sets
  import opened Tree
  import opened BlockRank

  /** The number of transactions before b on its path. */
  function Before(t: Forest, chainTx: map<int, nat>, b: int): nat
    requires b in t
  {
    if t[b].height == 0 then 0 else Num(chainTx, t[b].prev)
  }

  predicate ParentLinked(t: Forest, chainTx: map<int, nat>, b: int)
    requires b in t
  {
    t[b].height == 0 || Num(chainTx, t[b].prev) > 0
  }

  /** The multimap's values for one key, in the order they were inserted. */
  function Kids(unlinked: map<int, seq<int>>, p: int): seq<int> {
    if p in unlinked then unlinked[p] else []
  }

  ghost predicate LinkOk(t: Forest, nTx: map<int, nat>, chainTx: map<int, nat>, b: int)
    requires b in t
  {
    Num(chainTx, b) ==
    if Num(nTx, b) > 0 && ParentLinked(t, chainTx, b) then Before(t, chainTx, b) + Num(nTx, b) else 0
  }

  /** A block in the queue has its data and a linked parent, and is not linked itself. */
  ghost predicate ReadyOk(t: Forest, nTx: map<int, nat>, chainTx: map<int, nat>, b: int) {
    b in t && Num(nTx, b) > 0 && Num(chainTx, b) == 0 && ParentLinked(t, chainTx, b)
  }

  ghost predicate Linkage(t: Forest, nTx: map<int, nat>, chainTx: map<int, nat>, queue: seq<int>) {
    && (forall b {:trigger LinkOk(t, nTx, chainTx, b)} :: b in t && b !in queue ==> LinkOk(t, nTx, chainTx, b))
    && (forall b :: b in queue ==> ReadyOk(t, nTx, chainTx, b))
    && Distinct(queue)
  }

  ghost predicate KidOk(t: Forest, nTx: map<int, nat>, chainTx: map<int, nat>, queue: seq<int>, p: int, b: int) {
    b in t && t[b].height > 0 && t[b].prev == p && Num(nTx, b) > 0 && Num(chainTx, b) == 0 && b !in queue
  }

  ghost predicate KidsOk(t: Forest, nTx: map<int, nat>, chainTx: map<int, nat>, queue: seq<int>, p: int,
                         kids: seq<int>) {
    Distinct(kids) && forall b :: b in kids ==> KidOk(t, nTx, chainTx, queue, p, b)
  }

  /** Data without a link. */
  ghost predicate Stranded(t: Forest, nTx: map<int, nat>, chainTx: map<int, nat>, queue: seq<int>, b: int) {
    b in t && Num(nTx, b) > 0 && Num(chainTx, b) == 0 && b !in queue
  }

  ghost predicate Filed(t: Forest, failed: set<int>, unlinked: map<int, seq<int>>, b: int)
    requires b in t
  {
    t[b].height > 0 && (b in Kids(unlinked, t[b].prev) || t[b].prev in failed)
  }

  /** Exactly the stranded blocks are filed under their parents, except below a block known to be invalid. */
  ghost predicate Deferred(t: Forest, nTx: map<int, nat>, chainTx: map<int, nat>, failed: set<int>,
                           unlinked: map<int, seq<int>>, queue: seq<int>) {
    && (forall p :: KidsOk(t, nTx, chainTx, queue, p, Kids(unlinked, p)))
    && (forall b :: Stranded(t, nTx, chainTx, queue, b) ==> Filed(t, failed, unlinked, b))
  }

  /** A block found invalid is linked, or never had data. */
  ghost predicate FailedEmpty(nTx: map<int, nat>, chainTx: map<int, nat>, failed: set<int>) {
    forall b :: b in failed && Num(chainTx, b) == 0 ==> Num(nTx, b) == 0
  }

  ghost predicate SeqInRange(chainTx: map<int, nat>, seqId: map<int, nat>, nextId: nat, b: int) {
    Num(seqId, b) < nextId && (Num(seqId, b) > 0 <==> Num(chainTx, b) > 0)
  }

  ghost predicate SeqApart(seqId: map<int, nat>, a: int, b: int) {
    Num(seqId, a) == Num(seqId, b) > 0 ==> a == b
  }

  /** Sequence numbers go to the linked blocks only, and each is used once. */
  ghost predicate SeqOk(chainTx: map<int, nat>, seqId: map<int, nat>, nextId: nat) {
    && nextId > 0
    && (forall b {:trigger SeqInRange(chainTx, seqId, nextId, b)} :: SeqInRange(chainTx, seqId, nextId, b))
    && (forall a, b {:trigger SeqApart(seqId, a, b)} :: SeqApart(seqId, a, b))
  }

  /** Blocks not in the index have no data. */
  ghost predicate Known(t: Forest, nTx: map<int, nat>, chainTx: map<int, nat>, unlinked: map<int, seq<int>>) {
    nTx.Keys <= t.Keys && chainTx.Keys <= t.Keys && unlinked.Keys <= t.Keys
  }

  function Linked(chainTx: map<int, nat>, nTx: map<int, nat>, t: Forest, b: int): map<int, nat>
    requires b in t
  {
    chainTx[b := Before(t, chainTx, b) + Num(nTx, b)]
  }

  /** Taking b from the queue and linking it keeps the linkage. */
  lemma LinkKeepsLinkage(t: Forest, nTx: map<int, nat>, chainTx: map<int, nat>, failed: set<int>,
                         unlinked: map<int, seq<int>>, queue: seq<int>)
    requires Wf(t) && queue != [] && Linkage(t, nTx, chainTx, queue)
    requires Deferred(t, nTx, chainTx, failed, unlinked, queue)
    requires FailedEmpty(nTx, chainTx, failed) && queue[0] in t
    ensures Linkage(t, nTx, Linked(chainTx, nTx, t, queue[0]), queue[1..] + Kids(unlinked, queue[0]))
  {
    var b := queue[0];
    var chainTx' := Linked(chainTx, nTx, t, b);
    var kids := Kids(unlinked, b);
    var queue' := queue[1..] + kids;
    assert ReadyOk(t, nTx, chainTx, b) && KidsOk(t, nTx, chainTx, queue, b, kids) && b !in failed;
    forall c | c in t && c !in queue'
      ensures LinkOk(t, nTx, chainTx', c)
    {
      assert ParentOk(t, c) && ParentOk(t, b) && c !in queue[1..] && c !in kids;
      if c != b {
        assert c !in queue && LinkOk(t, nTx, chainTx, c);
        assert Stranded(t, nTx, chainTx, queue, c) ==> Filed(t, failed, unlinked, c);
      }
    }
    forall c | c in queue'
      ensures ReadyOk(t, nTx, chainTx', c)
    {
      if c in queue[1..] {
        assert c in queue && ReadyOk(t, nTx, chainTx, c);
      } else {
        assert c in kids && KidOk(t, nTx, chainTx, queue, b, c);
      }
    }
    Joined(queue, kids);
  }

  lemma Joined(queue: seq<int>, kids: seq<int>)
    requires queue != [] && Distinct(queue) && Distinct(kids) && forall k :: k in kids ==> k !in queue
    ensures Distinct(queue[1..] + kids) && queue[0] !in queue[1..]
  {
    var joined := queue[1..] + kids;
    forall i, j | 0 <= i < j < |joined|
      ensures joined[i] != joined[j]
    {
      if j < |queue| - 1 {
        assert joined[i] == queue[i + 1] && joined[j] == queue[j + 1];
      } else if i >= |queue| - 1 {
        assert joined[i] == kids[i - |queue| + 1];
      } else {
        assert joined[j] in kids && joined[i] in queue;
      }
    }
  }

  lemma LinkKeepsDeferred(t: Forest, nTx: map<int, nat>, chainTx: map<int, nat>, failed: set<int>,
                          unlinked: map<int, seq<int>>, queue: seq<int>)
    requires Wf(t) && queue != [] && Linkage(t, nTx, chainTx, queue)
    requires Deferred(t, nTx, chainTx, failed, unlinked, queue) && queue[0] in t
    ensures Deferred(t, nTx, Linked(chainTx, nTx, t, queue[0]), failed, unlinked - {queue[0]},
                     queue[1..] + Kids(unlinked, queue[0]))
  {
    var b := queue[0];
    var chainTx' := Linked(chainTx, nTx, t, b);
    var kids := Kids(unlinked, b);
    var queue' := queue[1..] + kids;
    var unlinked' := unlinked - {b};
    assert ReadyOk(t, nTx, chainTx, b) && KidsOk(t, nTx, chainTx, queue, b, kids);
    forall p
      ensures KidsOk(t, nTx, chainTx', queue', p, Kids(unlinked', p))
    {
      assert KidsOk(t, nTx, chainTx, queue, p, Kids(unlinked, p));
      if p != b {
        forall c | c in Kids(unlinked', p)
          ensures KidOk(t, nTx, chainTx', queue', p, c)
        {
          assert KidOk(t, nTx, chainTx, queue, p, c);
          assert c !in kids;
        }
      }
    }
    forall c | Stranded(t, nTx, chainTx', queue', c)
      ensures Filed(t, failed, unlinked', c)
    {
      assert c != b && c !in kids && c !in queue[1..];
      assert Stranded(t, nTx, chainTx, queue, c) && Filed(t, failed, unlinked, c);
    }
  }

  /** Marking the data of b as received, with a linked parent. */
  lemma ReceiveReady(t: Forest, nTx: map<int, nat>, chainTx: map<int, nat>, failed: set<int>,
                     unlinked: map<int, seq<int>>, b: int, n: nat)
    requires Wf(t) && Linkage(t, nTx, chainTx, []) && Deferred(t, nTx, chainTx, failed, unlinked, [])
    requires b in t && Num(nTx, b) == 0 && n > 0 && ParentLinked(t, chainTx, b)
    ensures Linkage(t, nTx[b := n], chainTx[b := 0], [b])
    ensures Deferred(t, nTx[b := n], chainTx[b := 0], failed, unlinked, [b])
  {
    var nTx', chainTx' := nTx[b := n], chainTx[b := 0];
    assert LinkOk(t, nTx, chainTx, b) && ParentOk(t, b);
    forall c | c in t && c !in [b]
      ensures LinkOk(t, nTx', chainTx', c)
    {
      assert LinkOk(t, nTx, chainTx, c);
    }
    forall p
      ensures KidsOk(t, nTx', chainTx', [b], p, Kids(unlinked, p))
    {
      assert KidsOk(t, nTx, chainTx, [], p, Kids(unlinked, p));
      forall c | c in Kids(unlinked, p)
        ensures KidOk(t, nTx', chainTx', [b], p, c)
      {
        assert KidOk(t, nTx, chainTx, [], p, c);
      }
    }
    forall c | Stranded(t, nTx', chainTx', [b], c)
      ensures Filed(t, failed, unlinked, c)
    {
      assert c != b && Stranded(t, nTx, chainTx, [], c);
    }
  }

  function FileUnder(unlinked: map<int, seq<int>>, p: int, b: int): map<int, seq<int>> {
    unlinked[p := Kids(unlinked, p) + [b]]
  }

  /** Marking the data of b as received, without a linked parent. */
  lemma ReceiveStranded(t: Forest, nTx: map<int, nat>, chainTx: map<int, nat>, failed: set<int>,
                        unlinked: map<int, seq<int>>, b: int, n: nat)
    requires Wf(t) && Linkage(t, nTx, chainTx, []) && Deferred(t, nTx, chainTx, failed, unlinked, [])
    requires b in t && Num(nTx, b) == 0 && n > 0 && !ParentLinked(t, chainTx, b)
    ensures Linkage(t, nTx[b := n], chainTx[b := 0], [])
    ensures var p := t[b].prev;
            Deferred(t, nTx[b := n], chainTx[b := 0], failed,
                     if p in failed then unlinked else FileUnder(unlinked, p, b), [])
  {
    var p := t[b].prev;
    var nTx', chainTx' := nTx[b := n], chainTx[b := 0];
    var unlinked' := if p in failed then unlinked else FileUnder(unlinked, p, b);
    assert LinkOk(t, nTx, chainTx, b) && ParentOk(t, b);
    forall c | c in t
      ensures LinkOk(t, nTx', chainTx', c)
    {
      assert LinkOk(t, nTx, chainTx, c);
    }
    forall q
      ensures KidsOk(t, nTx', chainTx', [], q, Kids(unlinked', q))
    {
      assert KidsOk(t, nTx, chainTx, [], q, Kids(unlinked, q));
      forall c | c in Kids(unlinked', q)
        ensures KidOk(t, nTx', chainTx', [], q, c)
      {
        assert c != b ==> KidOk(t, nTx, chainTx, [], q, c);
      }
      assert b in Kids(unlinked, q) ==> KidOk(t, nTx, chainTx, [], q, b);
    }
    forall c | Stranded(t, nTx', chainTx', [], c)
      ensures Filed(t, failed, unlinked', c)
    {
      if c != b {
        assert Stranded(t, nTx, chainTx, [], c) && Filed(t, failed, unlinked, c);
      } else {
        assert b in FileUnder(unlinked, p, b)[p];
      }
    }
  }

  /** The transactions on the whole path to b. */
  ghost function TxOnPath(t: Forest, nTx: map<int, nat>, b: int): nat
    requires Wf(t) && b in t
    decreases t[b].height
  {
    assert ParentOk(t, b);
    Num(nTx, b) + if t[b].height == 0 then 0 else TxOnPath(t, nTx, t[b].prev)
  }

  /** nChainTx is the sum along the path once all its blocks have data, and 0 before. */
  lemma {:induction false} ChainTxMeans(t: Forest, nTx: map<int, nat>, chainTx: map<int, nat>, b: int)
    requires Wf(t) && Linkage(t, nTx, chainTx, []) && b in t
    ensures Num(chainTx, b) == if Along(t, b, Positive(nTx)) then TxOnPath(t, nTx, b) else 0
    ensures Num(chainTx, b) > 0 <==> Along(t, b, Positive(nTx))
    decreases t[b].height
  {
    assert ParentOk(t, b) && LinkOk(t, nTx, chainTx, b);
    if t[b].height > 0 {
      ChainTxMeans(t, nTx, chainTx, t[b].prev);
    }
  }

  /** With no block found invalid, mapBlocksUnlinked holds exactly the blocks with data and a missing ancestor. */
  lemma UnlinkedExactly(t: Forest, nTx: map<int, nat>, chainTx: map<int, nat>, failed: set<int>,
                        unlinked: map<int, seq<int>>, p: int, b: int)
    requires Wf(t) && Linkage(t, nTx, chainTx, []) && Deferred(t, nTx, chainTx, failed, unlinked, []) && b in t
    requires t[b].height > 0 ==> t[b].prev !in failed
    ensures b in Kids(unlinked, p) <==>
              t[b].height > 0 && t[b].prev == p && Num(nTx, b) > 0 && !Along(t, b, Positive(nTx))
    ensures multiset(Kids(unlinked, p))[b] <= 1
  {
    ChainTxMeans(t, nTx, chainTx, b);
    assert KidsOk(t, nTx, chainTx, [], p, Kids(unlinked, p));
    if Num(nTx, b) > 0 && Num(chainTx, b) == 0 {
      assert Stranded(t, nTx, chainTx, [], b);
    }
    if b in Kids(unlinked, p) {
      assert KidOk(t, nTx, chainTx, [], p, b);
    }
    AtMostOnce(Kids(unlinked, p), b);
  }

  lemma {:induction false} AtMostOnce(s: seq<int>, b: int)
    requires Distinct(s)
    ensures multiset(s)[b] <= 1
  {
    if s != [] {
      var n := |s| - 1;
      assert s == s[..n] + [s[n]];
      AtMostOnce(s[..n], b);
    }
  }

  /** The linked blocks depend on the headers and the data received, not on the order of arrival. */
  lemma OrderDoesNotMatter(t: Forest, nTx: map<int, nat>, chainTx1: map<int, nat>, chainTx2: map<int, nat>, b: int)
    requires Wf(t) && Linkage(t, nTx, chainTx1, []) && Linkage(t, nTx, chainTx2, []) && b in t
    ensures Num(chainTx1, b) == Num(chainTx2, b)
  {
    ChainTxMeans(t, nTx, chainTx1, b);
    ChainTxMeans(t, nTx, chainTx2, b);
  }
}
