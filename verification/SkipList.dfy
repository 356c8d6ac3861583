/** The skip pointers of the block index and the fast ancestor walk over them (src/main.cpp). */
module SkipList {
  import opened Tree

  /** Bitwise and of two natural numbers. */
  function And(a: nat, b: nat): (r: nat)
    ensures r <= a && r <= b
  {
    if a == 0 || b == 0 then 0 else a % 2 * (b % 2) + 2 * And(a / 2, b / 2)
  }

  /** Turns the lowest set bit off. */
  function InvertLowestOne(n: nat): nat {
    if n == 0 then 0 else And(n, n - 1)
  }

  predicate Bit(n: nat, k: nat) {
    if k == 0 then n % 2 == 1 else Bit(n / 2, k - 1)
  }

  lemma {:induction false} AndBits(a: nat, b: nat, k: nat)
    ensures Bit(And(a, b), k) <==> Bit(a, k) && Bit(b, k)
    decreases k
  {
    if a == 0 || b == 0 {
      ZeroBits(k);
    } else {
      assert And(a, b) / 2 == And(a / 2, b / 2) && (And(a, b) % 2 == 1 <==> a % 2 == 1 && b % 2 == 1);
      if k > 0 {
        AndBits(a / 2, b / 2, k - 1);
      }
    }
  }

  lemma {:induction false} ZeroBits(k: nat)
    ensures !Bit(0, k)
    decreases k
  {
    if k > 0 {
      ZeroBits(k - 1);
    }
  }

  lemma {:induction false} AndSelf(n: nat)
    ensures And(n, n) == n
  {
    if n > 0 {
      AndSelf(n / 2);
    }
  }

  /** What turning off the lowest set bit means for odd and for even numbers. */
  lemma LowestOne(n: nat)
    requires n > 0
    ensures InvertLowestOne(n) == if n % 2 == 1 then n - 1 else 2 * InvertLowestOne(n / 2)
  {
    if n % 2 == 1 {
      AndSelf(n / 2);
      assert (n - 1) / 2 == n / 2;
    } else {
      assert (n - 1) / 2 == n / 2 - 1 && (n - 1) % 2 == 1;
    }
  }

  function GetSkipHeight(height: nat): (skip: nat)
    ensures height >= 1 ==> skip < height
    ensures height == 0 ==> skip == 0
  {
    if height < 2 then 0
    else if height % 2 == 1 then InvertLowestOne(InvertLowestOne(height - 1)) + 1
    else InvertLowestOne(height)
  }

  /** The block index with its skip pointers. A block above height 0 has one. */
  class BlockIndex {
    var tree: Forest
    var skip: map<int, int>

    /** Every skip pointer leads to the ancestor at the skip height. */
    ghost predicate Valid()
      reads this
    {
      && Wf(tree)
      && forall b :: b in tree && tree[b].height > 0 ==> SkipOk(b)
    }

    ghost predicate SkipOk(b: int)
      reads this
      requires Wf(tree) && b in tree && tree[b].height > 0
    {
      b in skip && skip[b] == Path(tree, b)[GetSkipHeight(tree[b].height)]
    }

    constructor ()
      ensures Valid() && tree == map[]
    {
      tree, skip := map[], map[];
    }

    /** Walks pskip or pprev; no pskip followed is null and the target is never passed. */
    method GetAncestor(b: int, height: int) returns (found: bool, a: int)
      requires Valid() && b in tree
      ensures found <==> 0 <= height <= tree[b].height
      ensures found ==> a == Path(tree, b)[height]
    {
      if height > tree[b].height || height < 0 {
        return false, b;
      }
      var walk, heightWalk := b, tree[b].height;
      while heightWalk > height
        invariant height <= heightWalk <= tree[b].height
        invariant walk in tree && tree[walk].height == heightWalk && walk == Path(tree, b)[heightWalk]
      {
        PathAt(tree, b, heightWalk);
        var heightSkip := GetSkipHeight(heightWalk);
        var heightSkipPrev := GetSkipHeight(heightWalk - 1);
        if heightSkip == height ||
          (heightSkip > height && !(heightSkipPrev < heightSkip - 2 && heightSkipPrev >= height)) {
          assert SkipOk(walk);
          PathAt(tree, b, heightSkip);
          walk, heightWalk := skip[walk], heightSkip;
        } else {
          PathStep(tree, b, heightWalk);
          PathAt(tree, b, heightWalk - 1);
          walk, heightWalk := tree[walk].prev, heightWalk - 1;
        }
      }
      return true, walk;
    }

    /** Adds a block under a known parent and builds its skip pointer. */
    method AddBlock(n: int, prev: int, proof: int)
      requires Valid() && n !in tree && prev in tree && proof > 0
      modifies this
      ensures Valid() && tree == old(tree)[n := Child(old(tree), prev, proof)]
    {
      var height := tree[prev].height + 1;
      var found, target := GetAncestor(prev, GetSkipHeight(height));
      ghost var before := tree;
      tree := tree[n := Child(tree, prev, proof)];
      skip := skip[n := target];
      KeepsSkips(before, n, old(skip));
    }

    lemma KeepsSkips(before: Forest, n: int, skipBefore: map<int, int>)
      requires Wf(before) && n !in before && n in tree && tree == before[n := tree[n]] && tree[n].height > 0
      requires tree[n].prev in before && before[tree[n].prev].height + 1 == tree[n].height
      requires before[tree[n].prev].work < tree[n].work
      requires n in skip && skip == skipBefore[n := skip[n]]
      requires skip[n] == Path(before, tree[n].prev)[GetSkipHeight(tree[n].height)]
      requires forall b :: b in before && before[b].height > 0 ==>
                 b in skipBefore && skipBefore[b] == Path(before, b)[GetSkipHeight(before[b].height)]
      ensures Valid()
    {
      WfGrows(before, n, tree[n]);
      forall b | b in tree && tree[b].height > 0
        ensures SkipOk(b)
      {
        if b == n {
          PathGrows(before, tree[n].prev, n, tree[n]);
        } else {
          PathGrows(before, b, n, tree[n]);
        }
      }
    }

    /** The genesis block has no parent and no skip pointer. */
    method AddGenesis(n: int, proof: int)
      requires Valid() && tree == map[]
      modifies this
      ensures Valid() && tree == map[n := Node(n, 0, proof)]
    {
      tree := map[n := Node(n, 0, proof)];
    }
  }
}
