/** Sequence helpers shared by the handlers: duplicate-freedom, first-occurrence
    de-duplication (the iteration order of a JavaScript `Set` or of an object's
    string keys), prefixes and sortedness. */
module Seqs {

  predicate NoDups<T(==)>(s: seq<T>) {
    forall i, j | 0 <= i < j < |s| :: s[i] != s[j]
  }

  /** Keeps the first occurrence of every element, in order of first
      occurrence: `[...new Set(s)]`. */
  function Distinct<T(==,!new)>(s: seq<T>): (r: seq<T>)
    ensures forall x :: x in r <==> x in s
    ensures NoDups(r)
    ensures |r| <= |s|
  {
    if |s| == 0 then []
    else
      var init := s[..|s| - 1];
      assert s == init + [s[|s| - 1]];
      var d := Distinct(init);
      if s[|s| - 1] in d then d else d + [s[|s| - 1]]
  }

  lemma {:induction false} DistinctOfDistinctFree<T(!new)>(s: seq<T>)
    requires NoDups(s)
    ensures Distinct(s) == s
  {
    if |s| > 0 {
      var init := s[..|s| - 1];
      assert NoDups(init);
      DistinctOfDistinctFree(init);
      assert s[|s| - 1] !in init;
      assert s == init + [s[|s| - 1]];
    }
  }

  /** `s.slice(0, n)`: the first `n` elements, or all of them. */
  function Take<T>(s: seq<T>, n: nat): (r: seq<T>)
    ensures |r| == if |s| <= n then |s| else n
    ensures r == s[..|r|]
  {
    if |s| <= n then s else s[..n]
  }

  /** Number of occurrences of `x` in `s`. */
  function Occurrences<T(==)>(s: seq<T>, x: T): nat {
    if |s| == 0 then 0
    else (if s[0] == x then 1 else 0) + Occurrences(s[1..], x)
  }

  lemma {:induction false} OccurrencesAppend<T>(a: seq<T>, b: seq<T>, x: T)
    ensures Occurrences(a + b, x) == Occurrences(a, x) + Occurrences(b, x)
  {
    if |a| == 0 {
      assert a + b == b;
    } else {
      assert (a + b)[0] == a[0];
      assert (a + b)[1..] == a[1..] + b;
      OccurrencesAppend(a[1..], b, x);
    }
  }

  lemma {:induction false} OccurrencesPositive<T>(s: seq<T>, x: T)
    ensures Occurrences(s, x) > 0 <==> x in s
  {
    if |s| > 0 {
      OccurrencesPositive(s[1..], x);
      assert x in s <==> x == s[0] || x in s[1..];
    }
  }

  lemma {:induction false} OccurrencesOfDistinctFree<T>(s: seq<T>, x: T)
    requires NoDups(s)
    ensures Occurrences(s, x) == if x in s then 1 else 0
  {
    if |s| > 0 {
      assert NoDups(s[1..]);
      OccurrencesOfDistinctFree(s[1..], x);
      assert x in s <==> x == s[0] || x in s[1..];
      if x == s[0] {
        assert x !in s[1..];
      }
    }
  }

  /** `xs` is ordered by `le`: every earlier element is `le` every later one. */
  ghost predicate SortedBy<T>(xs: seq<T>, le: (T, T) -> bool) {
    forall i, j | 0 <= i < j < |xs| :: le(xs[i], xs[j])
  }

  ghost predicate TotalPreorder<T(!new)>(le: (T, T) -> bool) {
    && (forall a, b :: le(a, b) || le(b, a))
    && (forall a, b, c :: le(a, b) && le(b, c) ==> le(a, c))
  }

  /** Inserts `x` in front of the first element it is `le`-below. */
  function Insert<T>(x: T, s: seq<T>, le: (T, T) -> bool): seq<T> {
    if |s| == 0 then [x]
    else if le(x, s[0]) then [x] + s
    else [s[0]] + Insert(x, s[1..], le)
  }

  lemma {:induction false} InsertPermutes<T>(x: T, s: seq<T>, le: (T, T) -> bool)
    ensures multiset(Insert(x, s, le)) == multiset(s) + multiset{x}
    ensures forall y :: y in Insert(x, s, le) <==> y == x || y in s
  {
    if |s| > 0 && !le(x, s[0]) {
      InsertPermutes(x, s[1..], le);
      assert s == [s[0]] + s[1..];
    }
  }

  lemma {:induction false} InsertSorted<T(!new)>(x: T, s: seq<T>, le: (T, T) -> bool)
    requires TotalPreorder(le)
    requires SortedBy(s, le)
    ensures SortedBy(Insert(x, s, le), le)
  {
    if |s| > 0 && !le(x, s[0]) {
      var rest := s[1..];
      assert SortedBy(rest, le);
      InsertSorted(x, rest, le);
      InsertPermutes(x, rest, le);
      var r := Insert(x, rest, le);
      assert le(s[0], x);
      forall k | 0 <= k < |r|
        ensures le(s[0], r[k])
      {
        assert r[k] in r;
        if r[k] != x {
          var m :| 0 <= m < |rest| && rest[m] == r[k];
          assert s[m + 1] == r[k];
        }
      }
      var out := [s[0]] + r;
      assert Insert(x, s, le) == out;
      forall i, j | 0 <= i < j < |out|
        ensures le(out[i], out[j])
      {
        assert out[j] == r[j - 1];
        if i > 0 {
          assert out[i] == r[i - 1];
        }
      }
    } else if |s| > 0 {
      var out := [x] + s;
      assert Insert(x, s, le) == out;
      forall i, j | 0 <= i < j < |out|
        ensures le(out[i], out[j])
      {
        assert out[j] == s[j - 1];
        if i > 0 {
          assert out[i] == s[i - 1];
        } else if j - 1 > 0 {
          assert le(s[0], s[j - 1]);
        }
      }
    }
  }

  /** Insertion sort.  Equal elements keep their relative order, as in
      JavaScript's stable `Array.prototype.sort`. */
  function Sort<T(!new)>(s: seq<T>, le: (T, T) -> bool): (r: seq<T>)
    requires TotalPreorder(le)
    ensures multiset(r) == multiset(s)
    ensures |r| == |s|
    ensures SortedBy(r, le)
  {
    if |s| == 0 then []
    else
      var rest := Sort(s[1..], le);
      InsertSorted(s[0], rest, le);
      InsertPermutes(s[0], rest, le);
      assert s == [s[0]] + s[1..];
      assert multiset(s) == multiset{s[0]} + multiset(s[1..]);
      var r := Insert(s[0], rest, le);
      assert |r| == |multiset(r)|;
      r
  }

  /** `s.filter(f)`: the elements that pass `f`, in order. */
  function Filter<T(!new)>(s: seq<T>, f: T -> bool): (r: seq<T>)
    ensures |r| <= |s|
    ensures forall x :: x in r <==> x in s && f(x)
  {
    if |s| == 0 then []
    else (if f(s[0]) then [s[0]] else []) + Filter(s[1..], f)
  }

  lemma {:induction false} FilterAppend<T(!new)>(a: seq<T>, b: seq<T>, f: T -> bool)
    ensures Filter(a + b, f) == Filter(a, f) + Filter(b, f)
  {
    if |a| > 0 {
      assert (a + b)[1..] == a[1..] + b;
      FilterAppend(a[1..], b, f);
    } else {
      assert a + b == b;
    }
  }

  /** Filtering keeps a list whose every element passes, and empties one
      whose every element fails. */
  lemma {:induction false} FilterAllOrNone<T(!new)>(s: seq<T>, f: T -> bool)
    ensures (forall i | 0 <= i < |s| :: f(s[i])) ==> Filter(s, f) == s
    ensures (forall i | 0 <= i < |s| :: !f(s[i])) ==> Filter(s, f) == []
  {
    if |s| > 0 {
      FilterAllOrNone(s[1..], f);
      assert forall i | 1 <= i < |s| :: s[1..][i - 1] == s[i];
      assert s == [s[0]] + s[1..];
    }
  }

  /** A filter and its complement split a list between them. */
  lemma {:induction false} FilterComplement<T(!new)>(s: seq<T>, f: T -> bool, g: T -> bool)
    requires forall x :: g(x) == !f(x)
    ensures |Filter(s, f)| + |Filter(s, g)| == |s|
  {
    if |s| > 0 {
      FilterComplement(s[1..], f, g);
    }
  }

  lemma {:induction false} FilterNoDups<T(!new)>(s: seq<T>, f: T -> bool)
    requires NoDups(s)
    ensures NoDups(Filter(s, f))
  {
    if |s| > 0 {
      assert NoDups(s[1..]) by {
        assert forall i | 1 <= i < |s| :: s[1..][i - 1] == s[i];
      }
      FilterNoDups(s[1..], f);
      assert s[0] !in s[1..];
    }
  }

  /** A list with the same elements, counted with multiplicity, as a list
      without duplicates has none either. */
  lemma PermutationNoDups<T>(s: seq<T>, r: seq<T>)
    requires NoDups(s) && multiset(r) == multiset(s)
    ensures NoDups(r)
  {
    forall i, j | 0 <= i < j < |r|
      ensures r[i] != r[j]
    {
      if r[i] == r[j] {
        assert r == r[..j] + r[j..];
        assert r[i] in r[..j] && r[j] in r[j..];
        assert multiset(r)[r[i]] >= 2;
        NoDupsCount(s, r[i]);
      }
    }
  }

  lemma {:induction false} NoDupsCount<T>(s: seq<T>, x: T)
    requires NoDups(s)
    ensures multiset(s)[x] <= 1
  {
    if |s| > 0 {
      assert s == [s[0]] + s[1..];
      assert NoDups(s[1..]) by {
        assert forall i | 1 <= i < |s| :: s[1..][i - 1] == s[i];
      }
      NoDupsCount(s[1..], x);
      if x == s[0] {
        assert x !in s[1..];
      }
    }
  }

  /** `s.map(f)`. */
  function MapSeq<T, U>(f: T -> U, s: seq<T>): (r: seq<U>)
    ensures |r| == |s|
    ensures forall i | 0 <= i < |s| :: r[i] == f(s[i])
  {
    seq(|s|, i requires 0 <= i < |s| => f(s[i]))
  }

  /** `f` neither creates nor breaks an ordering between two elements. */
  ghost predicate KeepsOrder<T(!new), U>(f: T -> U, le: (T, T) -> bool, le': (U, U) -> bool) {
    forall a, b :: le'(f(a), f(b)) == le(a, b)
  }

  lemma {:induction false} InsertMap<T(!new), U>(f: T -> U, x: T, s: seq<T>, le: (T, T) -> bool, le': (U, U) -> bool)
    requires KeepsOrder(f, le, le')
    ensures MapSeq(f, Insert(x, s, le)) == Insert(f(x), MapSeq(f, s), le')
  {
    if |s| > 0 {
      assert MapSeq(f, s)[0] == f(s[0]);
      assert MapSeq(f, s)[1..] == MapSeq(f, s[1..]);
      if le(x, s[0]) {
        assert MapSeq(f, [x] + s) == [f(x)] + MapSeq(f, s);
      } else {
        InsertMap(f, x, s[1..], le, le');
        assert MapSeq(f, [s[0]] + Insert(x, s[1..], le)) == [f(s[0])] + MapSeq(f, Insert(x, s[1..], le));
      }
    }
  }

  /** Sorting then mapping is mapping then sorting, when the map keeps the
      order: the sort is stable and compares only what `f` preserves. */
  lemma {:induction false} SortMap<T(!new), U(!new)>(f: T -> U, s: seq<T>, le: (T, T) -> bool, le': (U, U) -> bool)
    requires TotalPreorder(le) && TotalPreorder(le')
    requires KeepsOrder(f, le, le')
    ensures MapSeq(f, Sort(s, le)) == Sort(MapSeq(f, s), le')
  {
    if |s| > 0 {
      var m := MapSeq(f, s);
      assert m[0] == f(s[0]);
      assert m[1..] == MapSeq(f, s[1..]);
      SortMap(f, s[1..], le, le');
      InsertMap(f, s[0], Sort(s[1..], le), le, le');
    }
  }
}
