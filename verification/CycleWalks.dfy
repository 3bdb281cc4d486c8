/**
 Cycle walking: applying a permutation `f` of `[0, domain)` until the value falls below `n`
 is itself a permutation of `[0, n)`.
 */
module CycleWalks {
  import opened Words

  /** `f` maps `[0, domain)` into itself without collisions. */
  ghost predicate Injective(f: nat -> nat, domain: nat) {
    && (forall x | 0 <= x < domain :: f(x) < domain)
    && (forall x, y | 0 <= x < y < domain :: f(x) != f(y))
  }

  ghost predicate Hits(f: nat -> nat, domain: nat, y: nat) {
    exists x :: 0 <= x < domain && f(x) == y
  }

  ghost predicate Bijective(f: nat -> nat, domain: nat) {
    && Injective(f, domain)
    && (forall y | 0 <= y < domain :: Hits(f, domain, y))
  }

  /** An injection of a finite interval into itself takes every value. */
  lemma InjectiveIsBijective(f: nat -> nat, domain: nat)
    requires Injective(f, domain)
    ensures Bijective(f, domain)
  {
    var image: seq<int> := seq(domain, i requires 0 <= i < domain => f(i));
    assert Distinct(image) by {
      forall i, j | 0 <= i < j < |image| ensures image[i] != image[j] {
        assert f(i) != f(j);
      }
    }
    Pigeonhole(image, 0, domain);
    forall y | 0 <= y < domain ensures Hits(f, domain, y) {
      assert y in image;
      var x :| 0 <= x < |image| && image[x] == y;
      assert f(x) == y;
    }
  }

  ghost function Iterate(f: nat -> nat, k: nat, x: nat): nat {
    if k == 0 then x else f(Iterate(f, k - 1, x))
  }

  /** `k` is the number of applications after which the walk from `x` is back below `n`. */
  ghost predicate ReturnsAfter(f: nat -> nat, n: nat, x: nat, k: nat) {
    && 0 < k
    && Iterate(f, k, x) < n
    && (forall j {:trigger Iterate(f, j, x)} | 0 < j < k :: Iterate(f, j, x) >= n)
  }

  /** The points a walk has passed, none of them below `n` after the start. */
  ghost predicate IsWalk(f: nat -> nat, n: nat, domain: nat, path: seq<nat>) {
    && path != []
    && path[0] < n <= domain
    && (forall i | 0 < i < |path| :: n <= path[i] < domain)
    && (forall i, j | 0 <= i && j == i + 1 < |path| :: path[j] == f(path[i]))
  }

  lemma Separate(f: nat -> nat, domain: nat, x: nat, y: nat)
    requires Injective(f, domain) && x < domain && y < domain
    ensures x != y ==> f(x) != f(y)
  {
  }

  lemma ExtendWalk(f: nat -> nat, n: nat, domain: nat, path: seq<nat>)
    requires Injective(f, domain) && IsWalk(f, n, domain, path)
    requires f(path[|path| - 1]) >= n
    ensures IsWalk(f, n, domain, path + [f(path[|path| - 1])])
  {
  }

  /** A walk that has not returned never repeats a point, so it is short. */
  lemma {:induction false} WalkDistinct(f: nat -> nat, n: nat, domain: nat, path: seq<nat>)
    requires Injective(f, domain) && IsWalk(f, n, domain, path)
    ensures Distinct(path)
    ensures |path| <= domain - n + 1
  {
    if |path| > 1 {
      var last := |path| - 1;
      var front := path[..last];
      assert IsWalk(f, n, domain, front);
      WalkDistinct(f, n, domain, front);
      forall j | 0 <= j < last ensures path[j] != path[last] {
        if 0 < j {
          assert front[j - 1] != front[last - 1];
          Separate(f, domain, path[j - 1], path[last - 1]);
        }
      }
      assert Distinct(path) by {
        forall i, j | 0 <= i < j < |path| ensures path[i] != path[j] {
          if j < last { assert front[i] != front[j]; }
        }
      }
      var tail: seq<int> := seq(last, i requires 0 <= i < last => path[i + 1]);
      Pigeonhole(tail, n, domain);
    }
  }

  /** From any start below `n` the walk returns within `domain - n + 1` applications. */
  lemma WalkReturns(f: nat -> nat, n: nat, domain: nat, x: nat) returns (k: nat)
    requires Injective(f, domain) && x < n <= domain
    ensures ReturnsAfter(f, n, x, k) && k <= domain - n + 1
  {
    k := 1;
    var path: seq<nat> := [x];
    while Iterate(f, k, x) >= n
      invariant 0 < k == |path|
      invariant IsWalk(f, n, domain, path)
      invariant forall j {:trigger Iterate(f, j, x)} | 0 <= j < k :: path[j] == Iterate(f, j, x)
      invariant k <= domain - n + 1
      decreases domain - n + 1 - k
    {
      assert path[k - 1] == Iterate(f, k - 1, x);
      ExtendWalk(f, n, domain, path);
      path := path + [f(path[k - 1])];
      WalkDistinct(f, n, domain, path);
      k := k + 1;
    }
  }

  /** The cycle walk itself: apply `f` until the value is below `n`, at most `fuel` extra times. */
  function Walk(f: nat -> nat, n: nat, x: nat, fuel: nat): nat
    decreases fuel
  {
    if f(x) < n || fuel == 0 then f(x) else Walk(f, n, f(x), fuel - 1)
  }

  lemma {:induction false} WalkFrom(f: nat -> nat, n: nat, x: nat, j: nat, k: nat, fuel: nat)
    requires ReturnsAfter(f, n, x, k) && j < k <= j + fuel + 1
    ensures Walk(f, n, Iterate(f, j, x), fuel) == Iterate(f, k, x)
    decreases k - j
  {
    assert Iterate(f, j + 1, x) == f(Iterate(f, j, x));
    if j + 1 < k {
      WalkFrom(f, n, x, j + 1, k, fuel - 1);
    }
  }

  /** With the whole domain as fuel the walk stops at the first return. */
  lemma WalkStops(f: nat -> nat, n: nat, domain: nat, x: nat) returns (k: nat)
    requires Injective(f, domain) && x < n <= domain
    ensures ReturnsAfter(f, n, x, k) && k <= domain - n + 1
    ensures Walk(f, n, x, domain) == Iterate(f, k, x)
  {
    k := WalkReturns(f, n, domain, x);
    WalkFrom(f, n, x, 0, k, domain);
  }

  /** The loop of `get`, given a bound on the steps it will take. */
  method WalkLoop(f: nat -> nat, n: nat, index: nat, ghost bound: nat) returns (x: nat)
    requires Walk(f, n, index, bound) < n
    ensures x == Walk(f, n, index, bound)
  {
    x := index;
    ghost var left := bound;
    while true
      invariant Walk(f, n, x, left) == Walk(f, n, index, bound)
      decreases left
    {
      x := f(x);
      if x < n {
        return;
      }
      left := left - 1;
    }
  }

  lemma {:induction false} IterateInDomain(f: nat -> nat, domain: nat, x: nat, k: nat)
    requires Injective(f, domain) && x < domain
    ensures Iterate(f, k, x) < domain
  {
    if k > 0 { IterateInDomain(f, domain, x, k - 1); }
  }

  /** One step back from equal points. */
  lemma IterateBack(f: nat -> nat, domain: nat, a: nat, b: nat, i: nat, j: nat)
    requires Injective(f, domain) && a < domain && b < domain
    requires 0 < i <= j && Iterate(f, i, a) == Iterate(f, j, b)
    ensures Iterate(f, i - 1, a) == Iterate(f, j - 1, b)
  {
    IterateInDomain(f, domain, a, i - 1);
    IterateInDomain(f, domain, b, j - 1);
    Separate(f, domain, Iterate(f, i - 1, a), Iterate(f, j - 1, b));
  }

  /** Walking back the same number of steps from equal points gives equal points. */
  lemma {:induction false} IterateCancel(f: nat -> nat, domain: nat, a: nat, b: nat, i: nat, j: nat)
    requires Injective(f, domain) && a < domain && b < domain
    requires i <= j && Iterate(f, i, a) == Iterate(f, j, b)
    ensures a == Iterate(f, j - i, b)
  {
    if i > 0 {
      IterateBack(f, domain, a, b, i, j);
      IterateCancel(f, domain, a, b, i - 1, j - 1);
    }
  }

  /** Two walks that meet at their first return started at the same point. */
  lemma WalkInjective(f: nat -> nat, n: nat, domain: nat, a: nat, b: nat)
    requires Injective(f, domain) && a < n <= domain && b < n
    requires Walk(f, n, a, domain) == Walk(f, n, b, domain)
    ensures a == b
  {
    var i := WalkStops(f, n, domain, a);
    var j := WalkStops(f, n, domain, b);
    if i <= j {
      IterateCancel(f, domain, a, b, i, j);
    } else {
      IterateCancel(f, domain, b, a, j, i);
    }
  }

  /** First return is a bijection of `[0, n)`. */
  lemma WalkBijective(f: nat -> nat, n: nat, domain: nat, g: nat -> nat)
    requires Injective(f, domain) && n <= domain
    requires forall x | 0 <= x < n :: g(x) == Walk(f, n, x, domain)
    ensures Bijective(g, n)
  {
    forall x | 0 <= x < n ensures g(x) < n {
      var k := WalkStops(f, n, domain, x);
    }
    forall x, y | 0 <= x < y < n ensures g(x) != g(y) {
      if g(x) == g(y) { WalkInjective(f, n, domain, x, y); }
    }
    InjectiveIsBijective(g, n);
  }

  /* ----- a permutation written out ----- */

  /** Every index below `n` exactly once. */
  ghost predicate IsOrder(order: seq<nat>, n: nat) {
    && |order| == n
    && Distinct(order)
    && (forall v | 0 <= v < n :: v in order)
    && (forall i | 0 <= i < n :: order[i] < n)
  }

  ghost function Listing(g: nat -> nat, n: nat): (order: seq<nat>)
    ensures |order| == n
  {
    if n == 0 then [] else Listing(g, n - 1) + [g(n - 1)]
  }

  lemma {:induction false} ListingAt(g: nat -> nat, n: nat, i: nat)
    requires i < n
    ensures Listing(g, n)[i] == g(i)
  {
    if i < n - 1 { ListingAt(g, n - 1, i); }
  }

  /** A bijection lists every index exactly once. */
  lemma ListingIsOrder(g: nat -> nat, n: nat)
    requires Bijective(g, n)
    ensures IsOrder(Listing(g, n), n)
  {
    var order := Listing(g, n);
    forall i | 0 <= i < n ensures order[i] == g(i) { ListingAt(g, n, i); }
    forall v | 0 <= v < n ensures v in order {
      assert Hits(g, n, v);
      var i :| 0 <= i < n && g(i) == v;
      assert order[i] == v;
    }
  }
}
