/** Facts about finite sets that several components need. */
module Sets {

  ghost function Any<T>(s: set<T>): (x: T)
    requires s != {}
    ensures x in s
  {
    var x :| x in s;
    x
  }

  ghost predicate Distinct<T>(s: seq<T>) {
    forall i, j :: 0 <= i < j < |s| ==> s[i] != s[j]
  }

  lemma {:induction false} SubsetSize<T>(a: set<T>, b: set<T>)
    requires a <= b
    ensures |a| <= |b|
  {
    if a != {} {
      var x := Any(a);
      SubsetSize(a - {x}, b - {x});
    }
  }

  lemma SmallerSet<T>(a: set<T>, b: set<T>, x: T)
    requires a <= b && x in b && x !in a
    ensures |a| < |b|
  {
    assert a <= b - {x};
    SubsetSize(a, b - {x});
  }

  /** The elements of a sequence without repetition are as many as it is long. */
  lemma {:induction false} EnumerationSize<T>(s: seq<T>, keys: set<T>)
    requires Distinct(s)
    requires forall x :: x in keys <==> x in s
    ensures |s| == |keys|
  {
    if s == [] {
      assert forall x :: x in keys ==> x in s;
      assert keys == {};
    } else {
      var n := |s| - 1;
      assert s[n] in s && s == s[..n] + [s[n]];
      EnumerationSize(s[..n], keys - {s[n]});
    }
  }

  lemma {:induction false} LeastExists(s: set<int>) returns (m: int)
    requires s != {}
    ensures m in s && forall x :: x in s ==> m <= x
  {
    var first := Any(s);
    m := first;
    var rest := s - {first};
    if rest != {} {
      var l := LeastExists(rest);
      if l < m {
        m := l;
      }
    }
    forall x | x in s
      ensures m <= x
    {
      assert x == first || x in rest;
    }
  }
}
