/** How the block index orders blocks, and the numbers and flags it keeps per block (src/main.cpp, src/chain.h). */
module BlockRank {
  import opened Tree
  import opened Sets

  /** A number that a fresh block starts with at 0. */
  function Num(m: map<int, nat>, b: int): nat {
    if b in m then m[b] else 0
  }

  function WorkOf(t: Forest, b: int): int {
    if b in t then t[b].work else 0
  }

  /** a sorts before b: less work, or a later arrival, or a higher address. */
  predicate Less(t: Forest, seqId: map<int, nat>, a: int, b: int) {
    if WorkOf(t, a) > WorkOf(t, b) then false
    else if WorkOf(t, a) < WorkOf(t, b) then true
    else if Num(seqId, a) < Num(seqId, b) then false
    else if Num(seqId, a) > Num(seqId, b) then true
    else b < a
  }

  /** The order is strict and total. */
  lemma LessIsTotal(t: Forest, seqId: map<int, nat>, a: int, b: int, c: int)
    ensures !(Less(t, seqId, a, b) && Less(t, seqId, b, a))
    ensures Less(t, seqId, a, b) && Less(t, seqId, b, c) ==> Less(t, seqId, a, c)
    ensures a != b ==> Less(t, seqId, a, b) || Less(t, seqId, b, a)
  {
  }

  /** m is the last element of s in the order, or the first. */
  predicate IsEnd(t: Forest, seqId: map<int, nat>, s: set<int>, m: int, last: bool) {
    m in s && forall c :: c in s ==> if last then !Less(t, seqId, m, c) else !Less(t, seqId, c, m)
  }

  lemma {:induction false} EndExists(t: Forest, seqId: map<int, nat>, s: set<int>, last: bool) returns (m: int)
    requires s != {}
    ensures IsEnd(t, seqId, s, m, last)
  {
    var x := Any(s);
    m := x;
    var rest := s - {x};
    if rest != {} {
      var end := EndExists(t, seqId, rest, last);
      if Less(t, seqId, end, x) != last {
        m := end;
      }
    }
    forall c | c in s
      ensures if last then !Less(t, seqId, m, c) else !Less(t, seqId, c, m)
    {
      assert c == x || c in rest;
    }
  }

  /** The end of the ordered set: rbegin() or begin(). */
  method EndOf(t: Forest, seqId: map<int, nat>, s: set<int>, last: bool) returns (m: int)
    requires s != {}
    ensures IsEnd(t, seqId, s, m, last)
  {
    ghost var end := EndExists(t, seqId, s, last);
    m :| m in s && IsEnd(t, seqId, s, m, last);
  }

  /** Every block on the path to b, b included, has the property p. */
  ghost predicate Along(t: Forest, b: int, p: int -> bool)
    requires Wf(t) && b in t
    decreases t[b].height
  {
    assert ParentOk(t, b);
    p(b) && (t[b].height == 0 || Along(t, t[b].prev, p))
  }

  lemma {:induction false} AlongMeans(t: Forest, b: int, p: int -> bool)
    requires Wf(t) && b in t
    ensures Along(t, b, p) <==> forall a :: a in Path(t, b) ==> p(a)
    decreases t[b].height
  {
    assert ParentOk(t, b);
    if t[b].height > 0 {
      AlongMeans(t, t[b].prev, p);
      assert Path(t, b) == Path(t, t[b].prev) + [b];
    }
  }

  /** What holds along a path holds along every part of it from the start. */
  lemma {:induction false} AlongUp(t: Forest, b: int, i: nat, p: int -> bool)
    requires Wf(t) && b in t && i <= t[b].height && Along(t, b, p)
    ensures var a := Path(t, b)[i]; a in t && t[a].height == i && Along(t, a, p)
    decreases t[b].height
  {
    assert ParentOk(t, b);
    if i < t[b].height {
      AlongUp(t, t[b].prev, i, p);
    }
  }

  lemma {:induction false} AlongImplies(t: Forest, b: int, p: int -> bool, q: int -> bool)
    requires Wf(t) && b in t && Along(t, b, p) && forall a :: p(a) ==> q(a)
    ensures Along(t, b, q)
    decreases t[b].height
  {
    assert ParentOk(t, b);
    if t[b].height > 0 {
      AlongImplies(t, t[b].prev, p, q);
    }
  }

  lemma {:induction false} AlongGrows(t: Forest, b: int, n: int, node: Node, p: int -> bool)
    requires Wf(t) && b in t && n !in t && Wf(t[n := node])
    ensures Along(t[n := node], b, p) <==> Along(t, b, p)
    decreases t[b].height
  {
    assert ParentOk(t, b);
    if t[b].height > 0 {
      AlongGrows(t, t[b].prev, n, node, p);
    }
  }

  function NotIn(s: set<int>): int -> bool {
    b => b !in s
  }

  function Positive(m: map<int, nat>): int -> bool {
    b => Num(m, b) > 0
  }
}
