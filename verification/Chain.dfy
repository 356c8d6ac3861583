/** The active chain as a vector of blocks, and finding forks (src/chain.cpp, src/chain.h). */
module Chain {
  import opened Tree
  import opened SkipList

  datatype Entry = Null | Block(b: int)

  function Entries(p: seq<int>): (r: seq<Entry>)
    ensures |r| == |p| && forall i :: 0 <= i < |p| ==> r[i] == Block(p[i])
  {
    seq(|p|, i requires 0 <= i < |p| => Block(p[i]))
  }

  /** Cut off, or filled up with null entries. */
  function Resized(v: seq<Entry>, size: nat): (r: seq<Entry>)
    ensures |r| == size
    ensures forall k :: 0 <= k < size ==> r[k] == if k < |v| then v[k] else Null
  {
    if size <= |v| then v[..size] else v + seq(size - |v|, _ => Null)
  }

  /** A vector that shows some path, or is empty. */
  ghost predicate ShowsPath(t: Forest, v: seq<Entry>) {
    && Wf(t)
    && (v != [] ==> var last := v[|v| - 1]; last.Block? && last.b in t && v == Entries(Path(t, last.b)))
  }

  /** What lies below a block already in place was in place as well. */
  lemma WrittenDown(t: Forest, tip: int, was: seq<Entry>, now: seq<Entry>, h: int)
    requires ShowsPath(t, was) && tip in t && |now| == t[tip].height + 1 && -1 <= h < |now|
    requires forall k :: h < k < |now| ==> now[k] == Block(Path(t, tip)[k])
    requires forall k :: 0 <= k <= h ==> now[k] == if k < |was| then was[k] else Null
    requires h >= 0 ==> now[h] == Block(Path(t, tip)[h])
    ensures now == Entries(Path(t, tip))
  {
    if h >= 0 {
      AgreeBelow(t, was[|was| - 1].b, tip, h);
    }
  }

  class ActiveChain {
    var vChain: seq<Entry>

    /** The chain is the whole path to some block, or empty. */
    ghost predicate Valid(t: Forest)
      reads this
    {
      ShowsPath(t, vChain)
    }

    constructor ()
      ensures vChain == []
    {
      vChain := [];
    }

    function Height(): int
      reads this
    {
      |vChain| - 1
    }

    function At(height: int): Entry
      reads this
    {
      if 0 <= height < |vChain| then vChain[height] else Null
    }

    predicate Contains(t: Forest, b: int)
      reads this
      requires b in t
    {
      At(t[b].height) == Block(b)
    }

    /** Writes the path to tip downwards until a block is already in place. */
    method WriteDown(t: Forest, tip: int) returns (h: int)
      requires Wf(t) && tip in t && |vChain| == t[tip].height + 1
      modifies this
      ensures -1 <= h < |vChain| == old(|vChain|)
      ensures forall k :: h < k < |vChain| ==> vChain[k] == Block(Path(t, tip)[k])
      ensures forall k :: 0 <= k <= h ==> vChain[k] == old(vChain[k])
      ensures h >= 0 ==> vChain[h] == Block(Path(t, tip)[h])
    {
      ghost var p := Path(t, tip);
      PathHeights(t, tip);
      var walk := Block(tip);
      h := t[tip].height;
      while walk.Block? && vChain[h] != walk
        invariant -1 <= h < |vChain| == |p|
        invariant walk == if h >= 0 then Block(p[h]) else Null
        invariant forall k :: h < k < |p| ==> vChain[k] == Block(p[k])
        invariant forall k :: 0 <= k <= h ==> vChain[k] == old(vChain[k])
        decreases h
      {
        vChain := vChain[h := walk];
        if h > 0 {
          PathStep(t, tip, h);
        }
        walk, h := if h > 0 then Block(t[walk.b].prev) else Null, h - 1;
      }
    }

    /** Although the walk stops at the first block already in place, the result is the whole path. */
    method SetTip(t: Forest, tip: Entry)
      requires Valid(t) && (tip.Block? ==> tip.b in t)
      modifies this
      ensures Valid(t)
      ensures vChain == if tip.Null? then [] else Entries(Path(t, tip.b))
    {
      if tip.Null? {
        vChain := [];
        return;
      }
      ghost var was := vChain;
      vChain := Resized(vChain, t[tip.b].height + 1);
      var h := WriteDown(t, tip.b);
      WrittenDown(t, tip.b, was, vChain, h);
    }

    /** Down the path to b from height from, to the first block of the chain. */
    method WalkToFork(t: Forest, b: int, start: Entry, from: int) returns (h: int, fork: Entry)
      requires Wf(t) && b in t && -1 <= from <= t[b].height
      requires start == if from >= 0 then Block(Path(t, b)[from]) else Null
      ensures -1 <= h <= from && fork == (if h >= 0 then Block(Path(t, b)[h]) else Null)
      ensures h >= 0 ==> At(h) == fork
      ensures forall k :: h < k <= from ==> At(k) != Block(Path(t, b)[k])
    {
      ghost var p := Path(t, b);
      PathHeights(t, b);
      h, fork := from, start;
      while fork.Block? && !Contains(t, fork.b)
        invariant -1 <= h <= from && fork == if h >= 0 then Block(p[h]) else Null
        invariant forall k :: h < k <= from ==> At(k) != Block(p[k])
        decreases h
      {
        if h > 0 {
          PathStep(t, b, h);
        }
        fork, h := if h > 0 then Block(t[fork.b].prev) else Null, h - 1;
      }
    }

    /** The highest block that is both in the chain and on the path to b. */
    method FindFork(index: BlockIndex, b: int) returns (fork: Entry)
      requires index.Valid() && b in index.tree
      ensures fork.Block? ==> fork.b in index.tree && Contains(index.tree, fork.b) && fork.b in Path(index.tree, b)
      ensures forall a :: a in Path(index.tree, b) && a in index.tree && Contains(index.tree, a) ==>
                fork.Block? && index.tree[a].height <= index.tree[fork.b].height
    {
      var start, from := Block(b), index.tree[b].height;
      if from > Height() {
        var found, a := index.GetAncestor(b, Height());
        start, from := if found then Block(a) else Null, Height();
      }
      var h;
      h, fork := WalkToFork(index.tree, b, start, from);
      HighestShared(index.tree, b, h);
    }

    lemma HighestShared(t: Forest, b: int, h: int)
      requires Wf(t) && b in t && -1 <= h <= t[b].height
      requires forall k :: h < k <= t[b].height ==> At(k) != Block(Path(t, b)[k])
      ensures h >= 0 ==> Path(t, b)[h] in t && t[Path(t, b)[h]].height == h
      ensures forall a :: a in Path(t, b) && a in t && Contains(t, a) ==> t[a].height <= h
    {
      PathHeights(t, b);
    }
  }

  /** Two paths that meet agree below. */
  lemma AgreeBelow(t: Forest, a: int, b: int, h: nat)
    requires Wf(t) && a in t && b in t && h <= t[a].height && h <= t[b].height && Path(t, a)[h] == Path(t, b)[h]
    ensures Path(t, a)[..h + 1] == Path(t, b)[..h + 1]
    ensures forall k :: 0 <= k <= h ==> Path(t, a)[k] == Path(t, b)[k]
  {
    PathAt(t, a, h);
    PathAt(t, b, h);
    forall k | 0 <= k <= h
      ensures Path(t, a)[k] == Path(t, b)[k]
    {
      assert Path(t, a)[..h + 1][k] == Path(t, b)[..h + 1][k];
    }
  }
}
