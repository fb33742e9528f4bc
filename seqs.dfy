/** The list operations the tracker's queries are built from: JavaScript's
    `filter`, the duplicate-removing `filter((v, i, self) => self.indexOf(v) === i)`,
    and counting. */
module Seqs {

  /** `s.filter(p)`, keeping the order of `s`. */
  function Filter<T(!new)>(s: seq<T>, p: T -> bool): (r: seq<T>)
    ensures |r| <= |s|
    ensures forall x :: x in r <==> x in s && p(x)
    ensures forall i :: 0 <= i < |r| ==> p(r[i])
  {
    if s == [] then [] else (if p(s[0]) then [s[0]] else []) + Filter(s[1..], p)
  }

  /** A filter every element passes changes nothing. */
  lemma {:induction false} FilterKeepsAll<T(!new)>(s: seq<T>, p: T -> bool)
    requires forall x :: x in s ==> p(x)
    ensures Filter(s, p) == s
  {
    if s != [] {
      assert forall x :: x in s[1..] ==> x in s;
      FilterKeepsAll(s[1..], p);
      assert s[0] in s;
      assert s == [s[0]] + s[1..];
    }
  }

  /** Every element that passes is kept as often as it occurs; the others are dropped. */
  lemma {:induction false} FilterMultiset<T(!new)>(s: seq<T>, p: T -> bool)
    ensures forall x :: multiset(Filter(s, p))[x] == if p(x) then multiset(s)[x] else 0
  {
    if s != [] {
      FilterMultiset(s[1..], p);
      assert s == [s[0]] + s[1..];
    }
  }

  /** The number of elements of `s` that satisfy `p`. */
  function Count<T(!new)>(s: seq<T>, p: T -> bool): (n: nat)
    ensures n <= |s|
  {
    |Filter(s, p)|
  }

  lemma {:induction false} FilterAppend<T(!new)>(a: seq<T>, b: seq<T>, p: T -> bool)
    ensures Filter(a + b, p) == Filter(a, p) + Filter(b, p)
  {
    if a != [] {
      assert (a + b)[1..] == a[1..] + b;
      FilterAppend(a[1..], b, p);
    } else {
      assert a + b == b;
    }
  }

  lemma CountLast<T(!new)>(s: seq<T>, p: T -> bool)
    requires s != []
    ensures Count(s, p) == Count(s[..|s| - 1], p) + (if p(s[|s| - 1]) then 1 else 0)
  {
    var init, last := s[..|s| - 1], s[|s| - 1];
    assert s == init + [last];
    FilterAppend(init, [last], p);
    assert Filter([last], p) == if p(last) then [last] else [] by {
      assert [last][1..] == [];
    }
  }

  /** Two conditions that agree on every element keep the same elements. */
  lemma {:induction false} FilterSame<T(!new)>(s: seq<T>, p: T -> bool, q: T -> bool)
    requires forall x :: x in s ==> p(x) == q(x)
    ensures Filter(s, p) == Filter(s, q)
  {
    if s != [] {
      assert forall x :: x in s[1..] ==> x in s;
      FilterSame(s[1..], p, q);
    }
  }

  predicate NoDuplicates<T(==)>(s: seq<T>) {
    forall i, j :: 0 <= i < j < |s| ==> s[i] != s[j]
  }

  /** `s` with `x` placed at position `m`, the elements from `m` on moved one along. */
  function InsertAt<T(!new)>(s: seq<T>, m: nat, x: T): (r: seq<T>)
    requires m <= |s|
    ensures |r| == |s| + 1
    ensures forall i {:trigger r[i]} :: 0 <= i < m ==> r[i] == s[i]
    ensures r[m] == x
    ensures forall i :: m < i < |r| ==> r[i] == s[i - 1]
    ensures forall y :: y in r <==> y in s || y == x
  {
    if m == 0 then [x] + s else [s[0]] + InsertAt(s[1..], m - 1, x)
  }

  /** A new element appended keeps a sequence free of repetition. */
  lemma NoDuplicatesSnoc<T>(s: seq<T>, x: T)
    requires NoDuplicates(s) && x !in s
    ensures NoDuplicates(s + [x])
  {
  }

  /** A new element inserted anywhere keeps a sequence free of repetition. */
  lemma NoDuplicatesInsert<T(!new)>(s: seq<T>, m: nat, x: T)
    requires m <= |s| && NoDuplicates(s) && x !in s
    ensures NoDuplicates(InsertAt(s, m, x))
  {
    var r := InsertAt(s, m, x);
    forall i, j | 0 <= i < j < |r|
      ensures r[i] != r[j]
    {
      if i < m && j < m {
        assert r[i] == s[i] && r[j] == s[j];
      } else if i < m && j > m {
        assert r[i] == s[i] && r[j] == s[j - 1];
      } else if i > m {
        assert r[i] == s[i - 1] && r[j] == s[j - 1];
      } else if i == m {
        assert r[j] == s[j - 1];
      } else {
        assert r[i] == s[i];
      }
    }
  }

  /** The position of the first occurrence of `x` in `s`: JavaScript's `indexOf`. */
  function IndexOf<T(==)>(s: seq<T>, x: T): (k: nat)
    requires x in s
    ensures k < |s| && s[k] == x && x !in s[..k]
  {
    if s[0] == x then 0 else 1 + IndexOf(s[1..], x)
  }

  lemma {:induction false} IndexOfPrefix<T>(s: seq<T>, n: nat, x: T)
    requires n <= |s| && x in s[..n]
    ensures IndexOf(s, x) == IndexOf(s[..n], x)
  {
    if s[0] != x {
      assert s[1..][..n - 1] == s[..n][1..];
      IndexOfPrefix(s[1..], n - 1, x);
    }
  }

  /** `s.filter((v, i, self) => self.indexOf(v) === i)`: each element kept at its
      first occurrence only. */
  function Distinct<T(==,!new)>(s: seq<T>): (r: seq<T>)
    ensures forall x :: x in r <==> x in s
    ensures NoDuplicates(r)
    ensures |r| <= |s|
  {
    if s == [] then []
    else
      var init, x := s[..|s| - 1], s[|s| - 1];
      assert forall y :: y in s <==> y in init || y == x by {
        assert s == init + [x];
      }
      Distinct(init) + (if x in init then [] else [x])
  }

  /** The survivors of `Distinct` keep the order of their first occurrences. */
  lemma {:induction false} DistinctOrder<T(!new)>(s: seq<T>)
    ensures forall i, j :: 0 <= i < j < |Distinct(s)| ==>
      IndexOf(s, Distinct(s)[i]) < IndexOf(s, Distinct(s)[j])
  {
    if s != [] {
      var init, x := s[..|s| - 1], s[|s| - 1];
      var d := Distinct(init);
      DistinctOrder(init);
      assert s[..|s| - 1] == init;
      forall y | y in init
        ensures IndexOf(s, y) == IndexOf(init, y)
      {
        IndexOfPrefix(s, |s| - 1, y);
      }
      if x !in init {
        assert IndexOf(s, x) == |s| - 1 by {
          assert x !in s[..|s| - 1];
        }
      }
    }
  }

  /** A list without duplicates is its own `Distinct`. */
  lemma {:induction false} DistinctOfNoDuplicates<T(!new)>(s: seq<T>)
    requires NoDuplicates(s)
    ensures Distinct(s) == s
  {
    if s != [] {
      var init := s[..|s| - 1];
      assert NoDuplicates(init);
      DistinctOfNoDuplicates(init);
      assert s[|s| - 1] !in init;
      assert s == init + [s[|s| - 1]];
    }
  }

  lemma {:induction false} NoDuplicatesSetSize<T>(s: seq<T>)
    requires NoDuplicates(s)
    ensures |set x | x in s| == |s|
  {
    if s != [] {
      var init, x := s[..|s| - 1], s[|s| - 1];
      assert NoDuplicates(init);
      NoDuplicatesSetSize(init);
      assert s == init + [x];
      assert (set y | y in s) == (set y | y in init) + {x};
      assert x !in (set y | y in init);
    }
  }

  /** A list without duplicates whose elements all lie in `bound` is no longer than it. */
  lemma NoDuplicatesBounded<T>(s: seq<T>, bound: set<T>)
    requires NoDuplicates(s)
    requires forall x :: x in s ==> x in bound
    ensures |s| <= |bound|
  {
    NoDuplicatesSetSize(s);
    assert (set x | x in s) <= bound;
    SubsetCardinality((set x | x in s), bound);
  }

  lemma SubsetCardinality<T>(a: set<T>, b: set<T>)
    requires a <= b
    ensures |a| <= |b|
  {
    assert b == a + (b - a);
  }
}
