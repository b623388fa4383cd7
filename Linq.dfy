/**
 * The LINQ operators the import filters and report queries are built from,
 * over sequences: `Where`, `OrderBy`/`ThenBy` (a stable sort under one
 * comparison), `Take`, `Distinct` and `Sum`, with the facts the queries rely on.
 */
module Linq {

  /** No element occurs twice. */
  predicate NoDuplicates<T(==)>(xs: seq<T>) {
    forall i, j | 0 <= i < j < |xs| :: xs[i] != xs[j]
  }

  /** `sub` is `xs` with some elements deleted: what is left keeps its relative order. */
  predicate IsSubsequence<T(==)>(sub: seq<T>, xs: seq<T>)
    decreases |xs|
  {
    if xs == [] then sub == []
    else (sub != [] && sub[0] == xs[0] && IsSubsequence(sub[1..], xs[1..]))
         || IsSubsequence(sub, xs[1..])
  }

  // ---------------------------------------------------------------- Where

  /** `Enumerable.Where`: the elements satisfying `p`, in their original order. */
  function Where<T>(xs: seq<T>, p: T -> bool): (r: seq<T>)
    ensures |r| <= |xs|
    ensures forall i | 0 <= i < |r| :: p(r[i])
    ensures multiset(r) <= multiset(xs)
  {
    if xs == [] then []
    else
      assert xs == [xs[0]] + xs[1..];
      if p(xs[0]) then [xs[0]] + Where(xs[1..], p)
      else Where(xs[1..], p)
  }

  /** `Where` keeps every element satisfying `p` as often as it occurs, and nothing else. */
  lemma {:induction false} WhereKeepsExactly<T>(xs: seq<T>, p: T -> bool)
    ensures forall x :: multiset(Where(xs, p))[x] == if p(x) then multiset(xs)[x] else 0
  {
    if xs != [] {
      WhereKeepsExactly(xs[1..], p);
      assert xs == [xs[0]] + xs[1..];
    }
  }

  /** An element is in `Where(xs, p)` exactly when it is in `xs` and satisfies `p`. */
  lemma {:induction false} WhereMembers<T>(xs: seq<T>, p: T -> bool)
    ensures forall x :: x in Where(xs, p) <==> x in xs && p(x)
  {
    WhereKeepsExactly(xs, p);
    forall x ensures x in Where(xs, p) <==> x in xs && p(x) {
      assert x in Where(xs, p) <==> x in multiset(Where(xs, p));
      assert x in xs <==> x in multiset(xs);
    }
  }

  /** `Where` keeps the input order. */
  lemma {:induction false} WhereKeepsOrder<T>(xs: seq<T>, p: T -> bool)
    ensures IsSubsequence(Where(xs, p), xs)
  {
    if xs != [] {
      WhereKeepsOrder(xs[1..], p);
      if p(xs[0]) {
        assert ([xs[0]] + Where(xs[1..], p))[1..] == Where(xs[1..], p);
      }
    }
  }

  /** `key` strictly increases along `xs`. */
  predicate IncreasingBy<T>(xs: seq<T>, key: T -> int) {
    forall i, j | 0 <= i < j < |xs| :: key(xs[i]) < key(xs[j])
  }

  /** The tail of an increasing sequence is increasing and lies above its head. */
  lemma {:induction false} IncreasingTail<T>(xs: seq<T>, key: T -> int)
    requires xs != [] && IncreasingBy(xs, key)
    ensures IncreasingBy(xs[1..], key)
    ensures forall y | y in xs[1..] :: key(xs[0]) < key(y)
  {
    var tail := xs[1..];
    forall i, j | 0 <= i < j < |tail| ensures key(tail[i]) < key(tail[j]) {
      assert tail[i] == xs[i + 1] && tail[j] == xs[j + 1];
    }
    forall y | y in tail ensures key(xs[0]) < key(y) {
      var k :| 0 <= k < |tail| && tail[k] == y;
      assert xs[k + 1] == y;
    }
  }

  /** An element below every element of an increasing sequence extends it at the front. */
  lemma {:induction false} IncreasingCons<T>(x: T, xs: seq<T>, key: T -> int)
    requires IncreasingBy(xs, key)
    requires forall y | y in xs :: key(x) < key(y)
    ensures IncreasingBy([x] + xs, key)
  {
    var r := [x] + xs;
    forall i, j | 0 <= i < j < |r| ensures key(r[i]) < key(r[j]) {
      assert r[j] == xs[j - 1];
      if i > 0 {
        assert r[i] == xs[i - 1];
      }
    }
  }

  /** `Where` keeps a key that increases along the sequence increasing. */
  lemma {:induction false} WhereKeepsIncreasing<T>(xs: seq<T>, p: T -> bool, key: T -> int)
    requires IncreasingBy(xs, key)
    ensures IncreasingBy(Where(xs, p), key)
  {
    if xs != [] {
      var tail := xs[1..];
      IncreasingTail(xs, key);
      WhereKeepsIncreasing(tail, p, key);
      var rest := Where(tail, p);
      if p(xs[0]) {
        forall y | y in rest ensures key(xs[0]) < key(y) {
          assert y in multiset(rest);
        }
        IncreasingCons(xs[0], rest, key);
      }
    }
  }

  /** `Where(x => key(x) == v)`. */
  function WhereKey<T>(xs: seq<T>, key: T -> int, v: int): seq<T> {
    Where(xs, (x: T) => key(x) == v)
  }

  /** `Where(x => key(x) == v).Count()` is how often `v` occurs among the keys. */
  lemma {:induction false} WhereKeyCount<T>(xs: seq<T>, key: T -> int, v: int)
    ensures |WhereKey(xs, key, v)| == multiset(Select(xs, key))[v]
  {
    if xs != [] {
      WhereKeyCount(xs[1..], key, v);
      assert Select(xs, key) == [key(xs[0])] + Select(xs[1..], key);
    }
  }

  // ---------------------------------------------------------------- Select

  /** `Enumerable.Select`. */
  function Select<T, U>(xs: seq<T>, f: T -> U): seq<U> {
    seq(|xs|, i requires 0 <= i < |xs| => f(xs[i]))
  }

  lemma {:induction false} SelectOfAppend<T, U>(a: seq<T>, b: seq<T>, f: T -> U)
    ensures Select(a + b, f) == Select(a, f) + Select(b, f)
  {
  }

  /** Taking the first element of `xs` and its copy at `k` in `ys` out of two permutations leaves two permutations. */
  lemma {:induction false} RemoveMatching<T>(xs: seq<T>, ys: seq<T>, k: nat)
    requires multiset(xs) == multiset(ys)
    requires xs != [] && k < |ys| && ys[k] == xs[0]
    ensures multiset(xs[1..]) == multiset(ys[..k] + ys[k + 1..])
  {
    assert ys == ys[..k] + [ys[k]] + ys[k + 1..];
    assert xs == [xs[0]] + xs[1..];
    assert multiset(ys) == multiset(ys[..k]) + multiset{ys[k]} + multiset(ys[k + 1..]);
    assert multiset(xs) == multiset{xs[0]} + multiset(xs[1..]);
    assert multiset(ys[..k] + ys[k + 1..]) == multiset(ys[..k]) + multiset(ys[k + 1..]);
    forall y ensures multiset(xs[1..])[y] == multiset(ys[..k] + ys[k + 1..])[y] {
      assert multiset(xs)[y] == multiset(ys)[y];
    }
  }

  /** Projecting a sequence projects its `k`-th element once and the rest around it. */
  lemma {:induction false} SelectAround<T, U>(ys: seq<T>, k: nat, f: T -> U)
    requires k < |ys|
    ensures multiset(Select(ys, f)) == multiset(Select(ys[..k] + ys[k + 1..], f)) + multiset{f(ys[k])}
  {
    assert ys == ys[..k] + [ys[k]] + ys[k + 1..];
    SelectOfAppend(ys[..k] + [ys[k]], ys[k + 1..], f);
    SelectOfAppend(ys[..k], [ys[k]], f);
    SelectOfAppend(ys[..k], ys[k + 1..], f);
  }

  /** Projecting a permutation gives a permutation of the projection. */
  lemma {:induction false} SelectKeepsPermutation<T, U>(xs: seq<T>, ys: seq<T>, f: T -> U)
    requires multiset(xs) == multiset(ys)
    ensures multiset(Select(xs, f)) == multiset(Select(ys, f))
    decreases |xs|
  {
    if xs == [] {
      assert |ys| == |multiset(ys)| == 0;
    } else {
      assert xs[0] in multiset(ys);
      var k :| 0 <= k < |ys| && ys[k] == xs[0];
      RemoveMatching(xs, ys, k);
      SelectKeepsPermutation(xs[1..], ys[..k] + ys[k + 1..], f);
      SelectAround(xs, 0, f);
      assert xs[..0] + xs[1..] == xs[1..];
      SelectAround(ys, k, f);
    }
  }

  /** A property of every element holds of every element of a permutation. */
  lemma {:induction false} PermutationKeepsAll<T>(xs: seq<T>, ys: seq<T>, p: T -> bool)
    requires multiset(xs) == multiset(ys)
    requires forall i | 0 <= i < |xs| :: p(xs[i])
    ensures forall i | 0 <= i < |ys| :: p(ys[i])
  {
    forall i | 0 <= i < |ys| ensures p(ys[i]) {
      assert ys[i] in multiset(xs);
    }
  }

  /** A permutation of `Select(xs, f)` holds the image of every element of `xs` and nothing else. */
  lemma {:induction false} PermutedSelectMembers<T, U>(xs: seq<T>, f: T -> U, r: seq<U>)
    requires multiset(r) == multiset(Select(xs, f))
    ensures |r| == |xs|
    ensures forall x | x in xs :: f(x) in r
    ensures forall y | y in r :: exists x | x in xs :: y == f(x)
  {
    assert |r| == |multiset(r)| == |Select(xs, f)|;
    forall x | x in xs ensures f(x) in r {
      var k :| 0 <= k < |xs| && xs[k] == x;
      assert Select(xs, f)[k] == f(x);
      assert f(x) in multiset(r);
    }
    forall y | y in r ensures exists x | x in xs :: y == f(x) {
      assert y in multiset(Select(xs, f));
      var k :| 0 <= k < |xs| && f(xs[k]) == y;
      assert xs[k] in xs;
    }
  }

  // ---------------------------------------------------------------- OrderBy

  /** `f` maps elements in order under `le` to values in order under `leF`. */
  ghost predicate Monotone<T(!new), U>(le: (T, T) -> bool, f: T -> U, leF: (U, U) -> bool) {
    forall a, b :: le(a, b) ==> leF(f(a), f(b))
  }

  /** `le` orders every pair and is transitive: what a composite sort key gives. */
  ghost predicate TotalPreorder<T(!new)>(le: (T, T) -> bool) {
    && (forall a, b :: le(a, b) || le(b, a))
    && (forall a, b, c :: le(a, b) && le(b, c) ==> le(a, c))
  }

  predicate SortedBy<T>(xs: seq<T>, le: (T, T) -> bool) {
    forall i, j | 0 <= i < j < |xs| :: le(xs[i], xs[j])
  }

  /** An element at or before every element of a sorted sequence extends it at the front. */
  lemma {:induction false} SortedCons<T>(x: T, s: seq<T>, le: (T, T) -> bool)
    requires SortedBy(s, le)
    requires forall y | y in s :: le(x, y)
    ensures SortedBy([x] + s, le)
  {
    var r := [x] + s;
    forall i, j | 0 <= i < j < |r| ensures le(r[i], r[j]) {
      assert r[j] == s[j - 1] && r[j] in s;
      if i > 0 {
        assert r[i] == s[i - 1];
      }
    }
  }

  /** Under a total preorder, what sorts at or before the head of a sorted sequence sorts before all of it. */
  lemma {:induction false} BelowHeadIsBelowAll<T(!new)>(x: T, s: seq<T>, le: (T, T) -> bool)
    requires TotalPreorder(le) && SortedBy(s, le)
    requires s != [] ==> le(x, s[0])
    ensures forall y | y in s :: le(x, y)
  {
    forall y | y in s ensures le(x, y) {
      var j :| 0 <= j < |s| && s[j] == y;
      if j > 0 {
        assert le(s[0], s[j]);
      }
    }
  }

  /** Puts `x` before the first element it sorts at or before. */
  function Insert<T(!new)>(x: T, s: seq<T>, le: (T, T) -> bool): (r: seq<T>)
    requires TotalPreorder(le) && SortedBy(s, le)
    ensures SortedBy(r, le)
    ensures multiset(r) == multiset(s) + multiset{x}
  {
    if s == [] || le(x, s[0]) then
      BelowHeadIsBelowAll(x, s, le);
      SortedCons(x, s, le);
      [x] + s
    else
      var tail := s[1..];
      assert SortedBy(tail, le) by {
        forall i, j | 0 <= i < j < |tail| ensures le(tail[i], tail[j]) {
          assert tail[i] == s[i + 1] && tail[j] == s[j + 1];
        }
      }
      var rest := Insert(x, tail, le);
      assert s == [s[0]] + tail;
      BelowHeadIsBelowAll(s[0], tail, le);
      assert forall y | y in rest :: le(s[0], y) by {
        forall y | y in rest ensures le(s[0], y) {
          assert y in multiset(tail) + multiset{x};
          if y != x {
            assert y in tail;
          }
        }
      }
      SortedCons(s[0], rest, le);
      [s[0]] + rest
  }

  function SortBy<T(!new)>(xs: seq<T>, le: (T, T) -> bool): (r: seq<T>)
    requires TotalPreorder(le)
    ensures SortedBy(r, le)
    ensures multiset(r) == multiset(xs)
  {
    if xs == [] then []
    else
      assert xs == [xs[0]] + xs[1..];
      Insert(xs[0], SortBy(xs[1..], le), le)
  }

  // ---------------------------------------------------------------- Take

  /** `Enumerable.Take`: at most the first `n` elements. */
  function Take<T>(xs: seq<T>, n: nat): seq<T> {
    if |xs| <= n then xs else xs[..n]
  }

  /**
   * Taking from a sorted sequence keeps the least elements: `Take` returns
   * `min(n, |s|)` elements, the first ones of `s`, and every element it leaves
   * out sorts at or after each one it returns.
   */
  lemma {:induction false} TakeOfSortedIsLeast<T>(s: seq<T>, n: nat, le: (T, T) -> bool)
    requires SortedBy(s, le)
    ensures |Take(s, n)| == if |s| <= n then |s| else n
    ensures forall i | 0 <= i < |Take(s, n)| :: Take(s, n)[i] == s[i]
    ensures multiset(Take(s, n)) <= multiset(s)
    ensures forall x | x in multiset(s) - multiset(Take(s, n)) ::
              forall i | 0 <= i < |Take(s, n)| :: le(Take(s, n)[i], x)
  {
    var t := Take(s, n);
    var rest := s[|t|..];
    assert s == t + rest;
    assert multiset(s) - multiset(t) == multiset(rest);
    forall x | x in multiset(rest)
      ensures forall i | 0 <= i < |t| :: le(t[i], x)
    {
      var k :| 0 <= k < |rest| && rest[k] == x;
      assert s[|t| + k] == x;
    }
  }

  /**
   * The same for a sorted permutation `s` of `all` that is projected by `f`
   * after `Take`, when `f` keeps the order (`le` on elements implies `leF` on
   * their projections): the projection of every element left out sorts at or
   * after each projected element returned.
   */
  lemma {:induction false} SelectTakeOfSortedIsLeast<T(!new), U>(s: seq<T>, all: seq<T>, n: nat, le: (T, T) -> bool, f: T -> U, leF: (U, U) -> bool)
    requires SortedBy(s, le) && multiset(s) == multiset(all)
    requires Monotone(le, f, leF)
    ensures |Select(Take(s, n), f)| == if |all| <= n then |all| else n
    ensures multiset(Select(Take(s, n), f)) <= multiset(Select(all, f))
    ensures forall x | x in multiset(Select(all, f)) - multiset(Select(Take(s, n), f)) ::
              forall i | 0 <= i < |Select(Take(s, n), f)| :: leF(Select(Take(s, n), f)[i], x)
  {
    assert |s| == |multiset(s)| == |all|;
    var t := Take(s, n);
    var rest := s[|t|..];
    assert s == t + rest;
    SelectOfAppend(t, rest, f);
    SelectKeepsPermutation(s, all, f);
    var r := Select(t, f);
    assert multiset(Select(all, f)) == multiset(r) + multiset(Select(rest, f));
    forall x | x in multiset(Select(all, f)) - multiset(r)
      ensures forall i | 0 <= i < |r| :: leF(r[i], x)
    {
      assert x in Select(rest, f);
      var k :| 0 <= k < |rest| && f(rest[k]) == x;
      forall i | 0 <= i < |r| ensures leF(r[i], x) {
        assert le(s[i], s[|t| + k]);
      }
    }
  }

  /** Projecting the first `n` of a sorted sequence through an order-preserving map gives a sorted sequence. */
  lemma {:induction false} SelectTakeKeepsSorted<T(!new), U>(s: seq<T>, n: nat, le: (T, T) -> bool, f: T -> U, leF: (U, U) -> bool)
    requires SortedBy(s, le)
    requires Monotone(le, f, leF)
    ensures SortedBy(Select(Take(s, n), f), leF)
  {
    var r := Select(Take(s, n), f);
    forall i, j | 0 <= i < j < |r| ensures leF(r[i], r[j]) {
      assert le(s[i], s[j]);
    }
  }

  // ---------------------------------------------------------------- Distinct

  /**
   * `Enumerable.Distinct`: each element once, at the place it first occurs.
   * The last element is kept only when it did not occur before it.
   */
  function Distinct<T(==,!new)>(xs: seq<T>): (r: seq<T>)
    ensures NoDuplicates(r)
    ensures forall x :: x in r <==> x in xs
    ensures |r| <= |xs|
  {
    if xs == [] then []
    else
      var init := xs[..|xs| - 1];
      var last := xs[|xs| - 1];
      assert xs == init + [last];
      if last in init then Distinct(init) else Distinct(init) + [last]
  }

  /** Index of the first occurrence of `x`. */
  function FirstIndex<T(==)>(xs: seq<T>, x: T): (k: nat)
    requires x in xs
    ensures k < |xs| && xs[k] == x && x !in xs[..k]
  {
    if xs[0] == x then 0 else 1 + FirstIndex(xs[1..], x)
  }

  lemma {:induction false} FirstIndexOfPrefix<T>(init: seq<T>, last: T, x: T)
    requires x in init
    ensures FirstIndex(init + [last], x) == FirstIndex(init, x)
  {
    if init[0] != x {
      assert (init + [last])[1..] == init[1..] + [last];
      FirstIndexOfPrefix(init[1..], last, x);
    }
  }

  /** `Distinct` lists the elements in the order of their first occurrences. */
  lemma {:induction false} DistinctKeepsFirstOccurrenceOrder<T(!new)>(xs: seq<T>)
    ensures forall i, j | 0 <= i < j < |Distinct(xs)| ::
              FirstIndex(xs, Distinct(xs)[i]) < FirstIndex(xs, Distinct(xs)[j])
  {
    if xs != [] {
      var init := xs[..|xs| - 1];
      var last := xs[|xs| - 1];
      assert xs == init + [last];
      DistinctKeepsFirstOccurrenceOrder(init);
      var d := Distinct(init);
      forall y | y in d ensures FirstIndex(xs, y) == FirstIndex(init, y) {
        FirstIndexOfPrefix(init, last, y);
      }
      if last !in init {
        assert FirstIndex(xs, last) == |init|;
      }
    }
  }

  // ---------------------------------------------------------------- Sum

  /** `Enumerable.Sum` over integers. */
  function Sum(xs: seq<int>): int {
    if xs == [] then 0 else xs[0] + Sum(xs[1..])
  }

  lemma {:induction false} SumAppend(a: seq<int>, b: seq<int>)
    ensures Sum(a + b) == Sum(a) + Sum(b)
  {
    if a != [] {
      assert (a + b)[1..] == a[1..] + b;
      SumAppend(a[1..], b);
    } else {
      assert a + b == b;
    }
  }

  /** Summing pointwise smaller values gives a smaller sum. */
  lemma {:induction false} SumMonotone(xs: seq<int>, ys: seq<int>)
    requires |xs| == |ys|
    requires forall i | 0 <= i < |xs| :: xs[i] <= ys[i]
    ensures Sum(xs) <= Sum(ys)
  {
    if xs != [] {
      SumMonotone(xs[1..], ys[1..]);
    }
  }

  lemma {:induction false} SumNonNegative(xs: seq<int>)
    requires forall i | 0 <= i < |xs| :: xs[i] >= 0
    ensures Sum(xs) >= 0
  {
    if xs != [] {
      SumNonNegative(xs[1..]);
    }
  }

  /** Reordering does not change a sum. */
  lemma {:induction false} SumOfPermutation(a: seq<int>, b: seq<int>)
    requires multiset(a) == multiset(b)
    ensures Sum(a) == Sum(b)
    decreases |a|
  {
    if a != [] {
      assert a[0] in multiset(b);
      var k :| 0 <= k < |b| && b[k] == a[0];
      var rest := b[..k] + b[k + 1..];
      RemoveMatching(a, b, k);
      SumOfPermutation(a[1..], rest);
      assert b == b[..k] + ([b[k]] + b[k + 1..]);
      SumAppend(b[..k], [b[k]] + b[k + 1..]);
      SumAppend(b[..k], b[k + 1..]);
      assert ([b[k]] + b[k + 1..])[1..] == b[k + 1..];
    }
  }

  lemma {:induction false} SumSelectCons<T>(x: T, xs: seq<T>, g: T -> int)
    ensures Sum(Select([x] + xs, g)) == g(x) + Sum(Select(xs, g))
  {
    assert Select([x] + xs, g)[1..] == Select(xs, g);
  }

  /** Filtering out elements worth nothing does not change a sum. */
  lemma {:induction false} SumOverWhere<T>(xs: seq<T>, p: T -> bool, g: T -> int)
    requires forall x | x in xs && !p(x) :: g(x) == 0
    ensures Sum(Select(Where(xs, p), g)) == Sum(Select(xs, g))
  {
    if xs != [] {
      var x, rest := xs[0], xs[1..];
      assert xs == [x] + rest;
      assert x in xs;
      assert forall y | y in rest :: y in xs;
      SumOverWhere(rest, p, g);
      SumSelectCons(x, rest, g);
      if p(x) {
        assert Where(xs, p) == [x] + Where(rest, p);
        SumSelectCons(x, Where(rest, p), g);
      } else {
        assert Where(xs, p) == Where(rest, p);
      }
    }
  }

  /** The sums of `g` over the elements of `xs` whose key is `ks[0]`, `ks[1]`, ..., added up. */
  function SumPerKey<T>(ks: seq<int>, xs: seq<T>, key: T -> int, g: T -> int): int {
    if ks == [] then 0 else Sum(Select(WhereKey(xs, key, ks[0]), g)) + SumPerKey(ks[1..], xs, key, g)
  }

  lemma {:induction false} SumPerKeyOfEmpty<T>(ks: seq<int>, key: T -> int, g: T -> int)
    ensures SumPerKey(ks, [], key, g) == 0
  {
    if ks != [] {
      SumPerKeyOfEmpty(ks[1..], key, g);
    }
  }

  /** One more element adds its value once if its key is listed, and nothing otherwise. */
  lemma {:induction false} SumPerKeyCons<T>(ks: seq<int>, x: T, xs: seq<T>, key: T -> int, g: T -> int)
    requires NoDuplicates(ks)
    ensures SumPerKey(ks, [x] + xs, key, g) == (if key(x) in ks then g(x) else 0) + SumPerKey(ks, xs, key, g)
  {
    if ks != [] {
      var k, others := ks[0], ks[1..];
      assert ks == [k] + others;
      assert NoDuplicates(others) by {
        forall i, j | 0 <= i < j < |others| ensures others[i] != others[j] {
          assert others[i] == ks[i + 1] && others[j] == ks[j + 1];
        }
      }
      SumPerKeyCons(others, x, xs, key, g);
      assert ([x] + xs)[1..] == xs;
      assert WhereKey([x] + xs, key, k) == Where([x] + xs, (y: T) => key(y) == k);
      if key(x) == k {
        assert WhereKey([x] + xs, key, k) == [x] + WhereKey(xs, key, k);
        SumSelectCons(x, WhereKey(xs, key, k), g);
        assert k !in others by {
          forall i | 0 <= i < |others| ensures others[i] != k { assert others[i] == ks[i + 1]; }
        }
      } else {
        assert WhereKey([x] + xs, key, k) == WhereKey(xs, key, k);
      }
    }
  }

  /**
   * Grouping by a key that lists every element's key exactly once and summing
   * the groups gives the sum over all elements.
   */
  lemma {:induction false} SumPerKeyCoversAll<T>(ks: seq<int>, xs: seq<T>, key: T -> int, g: T -> int)
    requires NoDuplicates(ks)
    requires forall x | x in xs :: key(x) in ks
    ensures SumPerKey(ks, xs, key, g) == Sum(Select(xs, g))
  {
    if xs == [] {
      SumPerKeyOfEmpty(ks, key, g);
    } else {
      assert xs == [xs[0]] + xs[1..];
      assert xs[0] in xs;
      SumPerKeyCons(ks, xs[0], xs[1..], key, g);
      assert forall x | x in xs[1..] :: x in xs;
      SumPerKeyCoversAll(ks, xs[1..], key, g);
      SumSelectCons(xs[0], xs[1..], g);
    }
  }

  /** Summing per-group totals `h` over `cs` is `SumPerKey` over the groups' keys. */
  lemma {:induction false} SumOverGroups<C, T>(cs: seq<C>, ckey: C -> int, h: C -> int, xs: seq<T>, key: T -> int, g: T -> int)
    requires forall c | c in cs :: h(c) == Sum(Select(WhereKey(xs, key, ckey(c)), g))
    ensures Sum(Select(cs, h)) == SumPerKey(Select(cs, ckey), xs, key, g)
  {
    if cs != [] {
      assert cs[0] in cs;
      SumOverGroups(cs[1..], ckey, h, xs, key, g);
      assert Select(cs, h)[1..] == Select(cs[1..], h);
      assert Select(cs, ckey)[1..] == Select(cs[1..], ckey);
    }
  }
}
