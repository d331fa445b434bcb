/** The list operations the billing code uses: `filter`, and `reduce` with
    an accumulator that adds one term per element. `Sum` is the reference
    definition a `reduce` is proved equal to. */
module Seqs {

  /** `s.filter(p)`: the elements satisfying p, in their order. */
  function Filter<T>(s: seq<T>, p: T -> bool): (r: seq<T>)
    ensures |r| <= |s|
    ensures forall i :: 0 <= i < |r| ==> p(r[i])
    decreases |s|
  {
    if s == [] then []
    else if p(s[0]) then [s[0]] + Filter(s[1..], p)
    else Filter(s[1..], p)
  }

  /** Exactly the elements of s that pass the test are kept. */
  lemma {:induction false} FilterMembership<T>(s: seq<T>, p: T -> bool, x: T)
    ensures x in Filter(s, p) <==> x in s && p(x)
    decreases |s|
  {
    if s != [] {
      FilterMembership(s[1..], p, x);
    }
  }

  /** `s.reduce((acc, x) => acc + term(x), acc)`: a fold from the left. */
  function ReduceSum<T>(s: seq<T>, term: T -> int, acc: int): int
    decreases |s|
  {
    if s == [] then acc else ReduceSum(s[1..], term, acc + term(s[0]))
  }

  /** The sum of the terms of the elements. */
  function Sum<T>(s: seq<T>, term: T -> int): int
    decreases |s|
  {
    if s == [] then 0 else term(s[0]) + Sum(s[1..], term)
  }

  /** A `reduce` that adds one term per element computes the sum. */
  lemma {:induction false} ReduceIsSum<T>(s: seq<T>, term: T -> int, acc: int)
    ensures ReduceSum(s, term, acc) == acc + Sum(s, term)
    decreases |s|
  {
    if s != [] {
      ReduceIsSum(s[1..], term, acc + term(s[0]));
    }
  }

  lemma {:induction false} SumAppend<T>(a: seq<T>, b: seq<T>, term: T -> int)
    ensures Sum(a + b, term) == Sum(a, term) + Sum(b, term)
    decreases |a|
  {
    if a != [] {
      assert (a + b)[1..] == a[1..] + b;
      SumAppend(a[1..], b, term);
    } else {
      assert a + b == b;
    }
  }

  /** Sums of terms that agree on every element are equal. */
  lemma {:induction false} SumCongruent<T>(s: seq<T>, f: T -> int, g: T -> int)
    requires forall i :: 0 <= i < |s| ==> f(s[i]) == g(s[i])
    ensures Sum(s, f) == Sum(s, g)
    decreases |s|
  {
    if s != [] {
      SumCongruent(s[1..], f, g);
    }
  }

  /** Summing a term that is zero outside p is summing over the elements
      that satisfy p. */
  lemma {:induction false} SumOfFilter<T>(s: seq<T>, p: T -> bool, term: T -> int, masked: T -> int)
    requires forall x :: masked(x) == (if p(x) then term(x) else 0)
    ensures Sum(s, masked) == Sum(Filter(s, p), term)
    decreases |s|
  {
    if s != [] {
      SumOfFilter(s[1..], p, term, masked);
    }
  }

  /** Taking one element out of a sum. */
  lemma SumRemove<T>(b: seq<T>, j: int, term: T -> int)
    requires 0 <= j < |b|
    ensures Sum(b, term) == term(b[j]) + Sum(b[..j] + b[j + 1..], term)
  {
    assert b == b[..j] + ([b[j]] + b[j + 1..]);
    SumAppend(b[..j], [b[j]] + b[j + 1..], term);
    assert ([b[j]] + b[j + 1..])[1..] == b[j + 1..];
    SumAppend(b[..j], b[j + 1..], term);
  }

  /** Removing the j-th element removes one copy of it from the multiset. */
  lemma MultisetRemove<T>(b: seq<T>, j: int)
    requires 0 <= j < |b|
    ensures multiset(b[..j] + b[j + 1..]) == multiset(b) - multiset{b[j]}
  {
    assert b == b[..j] + [b[j]] + b[j + 1..];
    assert multiset(b) == multiset(b[..j]) + multiset{b[j]} + multiset(b[j + 1..]);
  }

  /** Sums do not depend on the order of the elements. */
  lemma {:induction false} SumPermutation<T>(a: seq<T>, b: seq<T>, term: T -> int)
    requires multiset(a) == multiset(b)
    ensures Sum(a, term) == Sum(b, term)
    decreases |a|
  {
    if a == [] {
      assert |b| == |multiset(b)| == 0;
    } else {
      assert a[0] in multiset(b);
      var j :| 0 <= j < |b| && b[j] == a[0];
      MultisetRemove(b, j);
      MultisetRemove(a, 0);
      assert a[..0] + a[1..] == a[1..];
      SumPermutation(a[1..], b[..j] + b[j + 1..], term);
      SumRemove(b, j, term);
    }
  }

  lemma {:induction false} FilterAppend<T>(a: seq<T>, b: seq<T>, p: T -> bool)
    ensures Filter(a + b, p) == Filter(a, p) + Filter(b, p)
    decreases |a|
  {
    if a != [] {
      assert (a + b)[1..] == a[1..] + b;
      FilterAppend(a[1..], b, p);
    } else {
      assert a + b == b;
    }
  }

  /** Filtering with a weaker test first changes nothing. */
  lemma {:induction false} FilterOfFilter<T>(s: seq<T>, strong: T -> bool, weak: T -> bool)
    requires forall x :: strong(x) ==> weak(x)
    ensures Filter(Filter(s, weak), strong) == Filter(s, strong)
    decreases |s|
  {
    if s != [] {
      FilterOfFilter(s[1..], strong, weak);
    }
  }

  /** Filtering twice is filtering once with both tests. */
  lemma {:induction false} FilterConjunction<T>(s: seq<T>, p: T -> bool, q: T -> bool, both: T -> bool)
    requires forall x :: both(x) == (p(x) && q(x))
    ensures Filter(Filter(s, p), q) == Filter(s, both)
    decreases |s|
  {
    if s != [] {
      FilterConjunction(s[1..], p, q, both);
    }
  }

  /** The first element a filter keeps is the first element of the input
      that passes the test, in both directions. */
  lemma {:induction false} FilterHead<T>(s: seq<T>, p: T -> bool, i: int)
    requires 0 <= i < |s| && p(s[i])
    requires forall j :: 0 <= j < i ==> !p(s[j])
    ensures Filter(s, p) != [] && Filter(s, p)[0] == s[i]
    decreases |s|
  {
    if i > 0 {
      FilterHead(s[1..], p, i - 1);
    }
  }

  lemma {:induction false} FilterHeadIndex<T>(s: seq<T>, p: T -> bool) returns (i: int)
    requires Filter(s, p) != []
    ensures 0 <= i < |s| && p(s[i]) && Filter(s, p)[0] == s[i]
    ensures forall j :: 0 <= j < i ==> !p(s[j])
    decreases |s|
  {
    if p(s[0]) {
      i := 0;
    } else {
      var k := FilterHeadIndex(s[1..], p);
      i := k + 1;
    }
  }

  lemma FilterSnoc<T>(s: seq<T>, x: T, p: T -> bool)
    ensures Filter(s + [x], p) == Filter(s, p) + (if p(x) then [x] else [])
  {
    FilterAppend(s, [x], p);
  }

  /** Moving an element to the end keeps the filtered multiset. */
  lemma PermuteLast<T>(a: seq<T>, x: T, b: seq<T>)
    ensures forall p: T -> bool :: multiset(Filter(a + [x] + b, p)) == multiset(Filter(a + b + [x], p))
  {
    forall p: T -> bool
      ensures multiset(Filter(a + [x] + b, p)) == multiset(Filter(a + b + [x], p))
    {
      FilterAppend(a + [x], b, p);
      FilterAppend(a, [x], p);
      FilterAppend(a + b, [x], p);
      FilterAppend(a, b, p);
    }
  }

  lemma {:induction false} NoneKept<T>(s: seq<T>, p: T -> bool)
    requires forall i :: 0 <= i < |s| ==> !p(s[i])
    ensures Filter(s, p) == []
    decreases |s|
  {
    if s != [] {
      NoneKept(s[1..], p);
    }
  }
}
