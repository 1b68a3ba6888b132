/**
 * The `Array.prototype` operations the core is built from: `filter`, `sort`
 * with a comparator (the platform sort is stable), `slice(0, n)` and `reduce`
 * summing a numeric field.
 *
 * A comparator follows the JavaScript convention: `cmp(a, b) <= 0` lets `a`
 * stay before `b`, `cmp(a, b) > 0` puts `b` first. The sort is written as a
 * stable insertion sort; for a comparator that is a total preorder every
 * stable sort yields the same sequence, so this fixes the platform's result.
 */
module ArrayOps {

  /** `s.filter(p)`. */
  function Filter<T>(s: seq<T>, p: T -> bool): (r: seq<T>)
    ensures |r| <= |s|
    ensures forall i :: 0 <= i < |r| ==> p(r[i])
  {
    if s == [] then [] else (if p(s[0]) then [s[0]] else []) + Filter(s[1..], p)
  }

  /** `filter` keeps every copy of every element that passes and no copy of any other. */
  lemma {:induction false} FilterMultiset<T>(s: seq<T>, p: T -> bool)
    ensures forall x :: multiset(Filter(s, p))[x] == if p(x) then multiset(s)[x] else 0
  {
    if s != [] {
      FilterMultiset(s[1..], p);
      assert s == [s[0]] + s[1..];
    }
  }

  /** `a` is `b` with some elements left out, the rest in their original order. */
  predicate IsSubsequence<T(==)>(a: seq<T>, b: seq<T>)
    decreases |b|
  {
    if a == [] then true
    else if b == [] then false
    else if a[0] == b[0] then IsSubsequence(a[1..], b[1..])
    else IsSubsequence(a, b[1..])
  }

  /** `filter` keeps the relative order of what it keeps. */
  lemma {:induction false} FilterIsSubsequence<T>(s: seq<T>, p: T -> bool)
    ensures IsSubsequence(Filter(s, p), s)
  {
    if s != [] {
      FilterIsSubsequence(s[1..], p);
      var r := Filter(s[1..], p);
      if p(s[0]) {
        assert Filter(s, p) == [s[0]] + r;
        assert ([s[0]] + r)[1..] == r;
      } else if r != [] {
        assert Filter(s, p) == r;
      }
    }
  }

  /** A predicate that every element passes makes `filter` the identity. */
  lemma {:induction false} FilterAllPass<T>(s: seq<T>, p: T -> bool)
    requires forall i :: 0 <= i < |s| ==> p(s[i])
    ensures Filter(s, p) == s
  {
    if s != [] {
      FilterAllPass(s[1..], p);
    }
  }

  /** If `a` may precede `b` and `b` may precede `c`, then `a` may precede `c`. */
  predicate Chain<T>(cmp: (T, T) -> int, a: T, b: T, c: T) {
    cmp(a, b) <= 0 && cmp(b, c) <= 0 ==> cmp(a, c) <= 0
  }

  /** The order `cmp` induces is transitive. */
  ghost predicate Transitive<T(!new)>(cmp: (T, T) -> int) {
    forall a, b, c {:trigger Chain(cmp, a, b, c)} :: Chain(cmp, a, b, c)
  }

  /** `cmp` orders like a total preorder: any two elements compare, and the order is transitive. */
  ghost predicate Consistent<T(!new)>(cmp: (T, T) -> int) {
    (forall a, b :: cmp(a, b) <= 0 || cmp(b, a) <= 0) && Transitive(cmp)
  }

  /** Every element may stay before every later one. */
  predicate SortedBy<T>(s: seq<T>, cmp: (T, T) -> int) {
    forall i, j :: 0 <= i < j < |s| ==> cmp(s[i], s[j]) <= 0
  }

  /** `a` and `b` are tied: neither has to come after the other. */
  predicate Tied<T>(cmp: (T, T) -> int, a: T, b: T) {
    cmp(a, b) <= 0 && cmp(b, a) <= 0
  }

  /** Put `x` in front of the first element it may precede. */
  function Insert<T>(x: T, t: seq<T>, cmp: (T, T) -> int): (r: seq<T>)
    ensures multiset(r) == multiset(t) + multiset{x}
    ensures |r| == |t| + 1
  {
    if t == [] then [x]
    else if cmp(x, t[0]) <= 0 then [x] + t
    else
      var rest := Insert(x, t[1..], cmp);
      assert t == [t[0]] + t[1..];
      [t[0]] + rest
  }

  /** `s.sort(cmp)`. */
  function SortBy<T>(s: seq<T>, cmp: (T, T) -> int): (r: seq<T>)
    ensures multiset(r) == multiset(s)
    ensures |r| == |s|
  {
    if s == [] then []
    else
      var rest := SortBy(s[1..], cmp);
      assert s == [s[0]] + s[1..];
      Insert(s[0], rest, cmp)
  }

  lemma {:induction false} InsertSorted<T(!new)>(x: T, t: seq<T>, cmp: (T, T) -> int)
    requires Consistent(cmp) && SortedBy(t, cmp)
    ensures SortedBy(Insert(x, t, cmp), cmp)
  {
    if t == [] {
    } else if cmp(x, t[0]) <= 0 {
      var r := [x] + t;
      forall j | 1 <= j < |r| ensures cmp(r[0], r[j]) <= 0 {
        assert Chain(cmp, x, t[0], t[j - 1]);
      }
    } else {
      var rest := Insert(x, t[1..], cmp);
      InsertSorted(x, t[1..], cmp);
      var r := [t[0]] + rest;
      forall j | 1 <= j < |r| ensures cmp(r[0], r[j]) <= 0 {
        assert r[j] in multiset(rest);
        if r[j] != x {
          assert r[j] in multiset(t[1..]);
          var k :| 0 <= k < |t[1..]| && t[1..][k] == r[j];
          assert t[k + 1] == r[j];
        }
      }
    }
  }

  /** With a consistent comparator the sorted output is in comparator order. */
  lemma {:induction false} SortSorted<T(!new)>(s: seq<T>, cmp: (T, T) -> int)
    requires Consistent(cmp)
    ensures SortedBy(SortBy(s, cmp), cmp)
  {
    if s != [] {
      SortSorted(s[1..], cmp);
      InsertSorted(s[0], SortBy(s[1..], cmp), cmp);
    }
  }

  /** The elements of `s` tied with `e`, in their order in `s`. */
  function Ties<T>(s: seq<T>, cmp: (T, T) -> int, e: T): seq<T> {
    if s == [] then [] else (if Tied(cmp, s[0], e) then [s[0]] else []) + Ties(s[1..], cmp, e)
  }

  lemma TiesCons<T>(y: T, t: seq<T>, cmp: (T, T) -> int, e: T)
    ensures Ties([y] + t, cmp, e) == Ties([y], cmp, e) + Ties(t, cmp, e)
  {
    assert ([y] + t)[1..] == t;
  }

  lemma TiesSingleton<T>(y: T, cmp: (T, T) -> int, e: T)
    ensures Ties([y], cmp, e) == if Tied(cmp, y, e) then [y] else []
  {
    assert [y][1..] == [];
  }

  lemma {:induction false} InsertTies<T(!new)>(x: T, t: seq<T>, cmp: (T, T) -> int, e: T)
    requires Transitive(cmp)
    ensures Ties(Insert(x, t, cmp), cmp, e) == Ties([x], cmp, e) + Ties(t, cmp, e)
  {
    if t == [] {
      assert Insert(x, t, cmp) == [x];
    } else if cmp(x, t[0]) <= 0 {
      assert Insert(x, t, cmp) == [x] + t;
      TiesCons(x, t, cmp, e);
    } else {
      var rest := Insert(x, t[1..], cmp);
      var tx, t0, tt := Ties([x], cmp, e), Ties([t[0]], cmp, e), Ties(t[1..], cmp, e);
      assert tx == [] || t0 == [] by {
        TiesSingleton(x, cmp, e);
        TiesSingleton(t[0], cmp, e);
        assert Chain(cmp, x, e, t[0]);
      }
      InsertTies(x, t[1..], cmp, e);
      TiesCons(t[0], rest, cmp, e);
      TiesCons(t[0], t[1..], cmp, e);
      calc {
        Ties(Insert(x, t, cmp), cmp, e);
        { assert Insert(x, t, cmp) == [t[0]] + rest; }
        t0 + Ties(rest, cmp, e);
        t0 + (tx + tt);
        { SwapEmpty(tx, t0, tt); }
        tx + (t0 + tt);
        { assert t == [t[0]] + t[1..]; }
        tx + Ties(t, cmp, e);
      }
    }
  }

  lemma SwapEmpty<T>(a: seq<T>, b: seq<T>, c: seq<T>)
    requires a == [] || b == []
    ensures b + (a + c) == a + (b + c)
  {
  }

  /**
   * The sort is stable: for every tie class, its members appear in the output
   * in the order they had in the input.
   */
  lemma {:induction false} SortStable<T(!new)>(s: seq<T>, cmp: (T, T) -> int, e: T)
    requires Consistent(cmp)
    ensures Ties(SortBy(s, cmp), cmp, e) == Ties(s, cmp, e)
  {
    if s != [] {
      var rest := SortBy(s[1..], cmp);
      SortStable(s[1..], cmp, e);
      InsertTies(s[0], rest, cmp, e);
      assert SortBy(s, cmp) == Insert(s[0], rest, cmp);
      TiesCons(s[0], s[1..], cmp, e);
      assert s == [s[0]] + s[1..];
    }
  }

  /** Whenever two tied elements occur in `s`, the earlier is related to the later by `prec`. */
  ghost predicate TieOrdered<T>(s: seq<T>, cmp: (T, T) -> int, prec: (T, T) -> bool) {
    forall i, j :: 0 <= i < j < |s| && Tied(cmp, s[i], s[j]) ==> prec(s[i], s[j])
  }

  lemma {:induction false} InsertTieOrdered<T>(x: T, t: seq<T>, cmp: (T, T) -> int, prec: (T, T) -> bool)
    requires TieOrdered(t, cmp, prec)
    requires forall k :: 0 <= k < |t| && Tied(cmp, x, t[k]) ==> prec(x, t[k])
    ensures TieOrdered(Insert(x, t, cmp), cmp, prec)
  {
    if t != [] && cmp(x, t[0]) > 0 {
      var rest := Insert(x, t[1..], cmp);
      InsertTieOrdered(x, t[1..], cmp, prec);
      var r := [t[0]] + rest;
      forall j | 1 <= j < |r| && Tied(cmp, r[0], r[j]) ensures prec(r[0], r[j]) {
        assert r[j] in multiset(rest);
        if r[j] != x {
          assert r[j] in multiset(t[1..]);
          var k :| 0 <= k < |t[1..]| && t[1..][k] == r[j];
          assert t[k + 1] == r[j];
        }
      }
    }
  }

  /**
   * Any order among tied elements that the input respects, the output respects
   * too: this is stability stated by pairs, for inputs whose elements carry
   * their own order.
   */
  lemma {:induction false} SortKeepsTieOrder<T>(s: seq<T>, cmp: (T, T) -> int, prec: (T, T) -> bool)
    requires TieOrdered(s, cmp, prec)
    ensures TieOrdered(SortBy(s, cmp), cmp, prec)
  {
    if s != [] {
      var rest := SortBy(s[1..], cmp);
      assert TieOrdered(s[1..], cmp, prec) by {
        forall i, j | 0 <= i < j < |s[1..]| && Tied(cmp, s[1..][i], s[1..][j])
          ensures prec(s[1..][i], s[1..][j])
        {
          assert s[1..][i] == s[i + 1] && s[1..][j] == s[j + 1];
        }
      }
      SortKeepsTieOrder(s[1..], cmp, prec);
      forall k | 0 <= k < |rest| && Tied(cmp, s[0], rest[k]) ensures prec(s[0], rest[k]) {
        assert rest[k] in multiset(s[1..]);
        var m :| 0 <= m < |s[1..]| && s[1..][m] == rest[k];
        assert s[m + 1] == rest[k];
      }
      InsertTieOrdered(s[0], rest, cmp, prec);
    }
  }

  lemma {:induction false} DistinctOccursOnce<T>(s: seq<T>, x: T)
    requires forall i, j :: 0 <= i < j < |s| ==> s[i] != s[j]
    ensures multiset(s)[x] <= 1
  {
    if s != [] {
      DistinctOccursOnce(s[1..], x);
      assert s == [s[0]] + s[1..];
      if s[0] == x {
        assert x !in s[1..];
      }
    }
  }

  lemma RepeatedOccursTwice<T>(s: seq<T>, i: nat, j: nat)
    requires i < j < |s| && s[i] == s[j]
    ensures multiset(s)[s[i]] >= 2
  {
    assert s == s[..j] + [s[j]] + s[j + 1..];
    assert s[i] in s[..j];
  }

  /** Rearranging a sequence whose elements have distinct keys keeps the keys distinct. */
  lemma PermutationKeepsDistinct<T, K>(s: seq<T>, r: seq<T>, key: T -> K)
    requires multiset(r) == multiset(s)
    requires forall i, j :: 0 <= i < j < |s| ==> key(s[i]) != key(s[j])
    ensures forall i, j :: 0 <= i < j < |r| ==> key(r[i]) != key(r[j])
  {
    forall i, j | 0 <= i < j < |r| ensures key(r[i]) != key(r[j]) {
      assert r[i] in multiset(s) && r[j] in multiset(s);
      var a :| 0 <= a < |s| && s[a] == r[i];
      var b :| 0 <= b < |s| && s[b] == r[j];
      if a == b {
        RepeatedOccursTwice(r, i, j);
        assert forall u, v :: 0 <= u < v < |s| ==> s[u] != s[v];
        DistinctOccursOnce(s, r[i]);
      }
    }
  }

  /** `s.reduce((sum, x) => sum + f(x), 0)`. */
  function SumBy<T>(s: seq<T>, f: T -> int): (r: int)
    ensures (forall i :: 0 <= i < |s| ==> f(s[i]) >= 0) ==> r >= 0
  {
    if s == [] then 0 else f(s[0]) + SumBy(s[1..], f)
  }

  /** Filtering out elements whose values are non-negative never increases the sum. */
  lemma {:induction false} SumByFilter<T>(s: seq<T>, p: T -> bool, f: T -> int)
    requires forall i :: 0 <= i < |s| ==> f(s[i]) >= 0
    ensures SumBy(Filter(s, p), f) <= SumBy(s, f)
  {
    if s != [] {
      SumByFilter(s[1..], p, f);
      if p(s[0]) {
        assert Filter(s, p) == [s[0]] + Filter(s[1..], p);
        assert Filter(s, p)[1..] == Filter(s[1..], p);
      } else {
        assert Filter(s, p) == Filter(s[1..], p);
      }
    }
  }

  lemma {:induction false} SumByInsert<T>(x: T, t: seq<T>, cmp: (T, T) -> int, f: T -> int)
    ensures SumBy(Insert(x, t, cmp), f) == f(x) + SumBy(t, f)
  {
    if t != [] && cmp(x, t[0]) > 0 {
      SumByInsert(x, t[1..], cmp, f);
      assert ([t[0]] + Insert(x, t[1..], cmp))[1..] == Insert(x, t[1..], cmp);
    } else if t != [] {
      assert ([x] + t)[1..] == t;
    }
  }

  /** Sorting does not change a sum. */
  lemma {:induction false} SumBySort<T>(s: seq<T>, cmp: (T, T) -> int, f: T -> int)
    ensures SumBy(SortBy(s, cmp), f) == SumBy(s, f)
  {
    if s != [] {
      SumBySort(s[1..], cmp, f);
      SumByInsert(s[0], SortBy(s[1..], cmp), cmp, f);
    }
  }

  /** `s.slice(0, n)`. */
  function Take<T>(s: seq<T>, n: nat): (r: seq<T>)
    ensures |r| == if |s| < n then |s| else n
    ensures r == s[..|r|]
  {
    if |s| <= n then s else s[..n]
  }
}
