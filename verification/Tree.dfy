/** The tree of block headers: parents, heights and the path from the genesis block (src/chain.h). */
module Tree {

  /** prev means nothing at height 0; work is the total of the chain up to the block. */
  datatype Node = Node(prev: int, height: nat, work: int)

  type Forest = map<int, Node>

  /** A new block on top of prev. */
  function Child(t: Forest, prev: int, proof: int): Node
    requires prev in t
  {
    Node(prev, t[prev].height + 1, t[prev].work + proof)
  }

  ghost predicate ParentOk(t: Forest, b: int)
    requires b in t
  {
    t[b].height > 0 ==>
      t[b].prev in t && t[t[b].prev].height + 1 == t[b].height && t[t[b].prev].work < t[b].work
  }

  ghost predicate Wf(t: Forest) {
    forall b {:trigger ParentOk(t, b)} :: b in t ==> ParentOk(t, b)
  }

  /** The blocks from height 0 up to b. */
  ghost function Path(t: Forest, b: int): (p: seq<int>)
    requires Wf(t) && b in t
    ensures |p| == t[b].height + 1 && p[|p| - 1] == b
    decreases t[b].height
  {
    assert ParentOk(t, b);
    if t[b].height == 0 then [b] else Path(t, t[b].prev) + [b]
  }

  /** Every block of the path is at its own height, and the path to it is the part up to it. */
  lemma {:induction false} PathAt(t: Forest, b: int, i: nat)
    requires Wf(t) && b in t && i <= t[b].height
    ensures var a := Path(t, b)[i];
            a in t && t[a].height == i && Path(t, a) == Path(t, b)[..i + 1]
    decreases t[b].height
  {
    assert ParentOk(t, b);
    if i < t[b].height {
      PathAt(t, t[b].prev, i);
    }
  }

  lemma PathStep(t: Forest, b: int, i: nat)
    requires Wf(t) && b in t && 0 < i <= t[b].height
    ensures var a := Path(t, b)[i];
            a in t && t[a].height == i && t[a].prev == Path(t, b)[i - 1]
  {
    PathAt(t, b, i);
    var a := Path(t, b)[i];
    assert ParentOk(t, a);
    assert Path(t, a)[i - 1] == Path(t, b)[..i + 1][i - 1];
  }

  lemma OneDown(t: Forest, b: int, a: int, i: nat)
    requires Wf(t) && b in t && 0 < i <= t[b].height && a == Path(t, b)[i]
    ensures a in t && t[a].prev in t && t[a].prev == Path(t, b)[i - 1] && t[t[a].prev].height == i - 1
  {
    PathStep(t, b, i);
    PathAt(t, b, i - 1);
  }

  lemma PathHeights(t: Forest, b: int)
    requires Wf(t) && b in t
    ensures forall k :: 0 <= k <= t[b].height ==> Path(t, b)[k] in t && t[Path(t, b)[k]].height == k
  {
    forall k | 0 <= k <= t[b].height
      ensures Path(t, b)[k] in t && t[Path(t, b)[k]].height == k
    {
      PathAt(t, b, k);
    }
  }

  /** Work grows along a path. */
  lemma {:induction false} PathWork(t: Forest, b: int, i: nat)
    requires Wf(t) && b in t && i < t[b].height
    ensures Path(t, b)[i] in t && t[Path(t, b)[i]].work < t[b].work
    decreases t[b].height
  {
    assert ParentOk(t, b);
    if i < t[b].height - 1 {
      PathWork(t, t[b].prev, i);
    }
  }

  /** A new block leaves every path as it was. */
  lemma {:induction false} PathGrows(t: Forest, b: int, n: int, node: Node)
    requires Wf(t) && b in t && n !in t && Wf(t[n := node])
    ensures Path(t[n := node], b) == Path(t, b)
    decreases t[b].height
  {
    assert ParentOk(t, b);
    if t[b].height > 0 {
      PathGrows(t, t[b].prev, n, node);
    }
  }

  lemma WfGrows(t: Forest, n: int, node: Node)
    requires Wf(t) && n !in t
    requires node.height > 0 ==>
               node.prev in t && t[node.prev].height + 1 == node.height && t[node.prev].work < node.work
    ensures Wf(t[n := node])
  {
    var t' := t[n := node];
    forall b | b in t'
      ensures ParentOk(t', b)
    {
      if b != n {
        assert ParentOk(t, b);
      }
    }
  }

  ghost function ForkFrom(p: seq<int>, q: seq<int>, i: nat): (r: nat)
    requires i < |p| && i < |q|
    ensures r <= i && (r > 0 ==> p[r] == q[r]) && forall k :: r < k <= i ==> p[k] != q[k]
  {
    if i == 0 || p[i] == q[i] then i else ForkFrom(p, q, i - 1)
  }

  /** The greatest height at which the paths to two blocks agree; 0 if they do not. */
  ghost function ForkHeight(t: Forest, a: int, b: int): (r: nat)
    requires Wf(t) && a in t && b in t
    ensures r <= t[a].height && r <= t[b].height
  {
    ForkFrom(Path(t, a), Path(t, b), if t[a].height < t[b].height then t[a].height else t[b].height)
  }

  /** On the path to b, nothing has to be left to reach b. */
  lemma ForkOnPath(t: Forest, a: int, b: int)
    requires Wf(t) && b in t && a in Path(t, b)
    ensures a in t && ForkHeight(t, a, b) == t[a].height
  {
    var i :| 0 <= i < |Path(t, b)| && Path(t, b)[i] == a;
    PathAt(t, b, i);
  }

  /** The blocks of the path to n from height i on. */
  ghost function Upper(t: Forest, n: int, i: nat): set<int>
    requires Wf(t) && n in t
  {
    set k | i <= k <= t[n].height :: Path(t, n)[k]
  }

  lemma UpperStep(t: Forest, n: int, i: nat)
    requires Wf(t) && n in t && i <= t[n].height
    ensures Upper(t, n, i) == Upper(t, n, i + 1) + {Path(t, n)[i]}
  {
  }
}
