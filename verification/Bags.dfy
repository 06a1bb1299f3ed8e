/** Bags (multisets) of rows: sums of bags, and the bag of a concatenation. */
module Bags {
  /** f(0) + ... + f(n - 1). */
  ghost function Sum<T>(f: nat -> multiset<T>, n: nat): multiset<T> {
    if n == 0 then multiset{} else Sum(f, n - 1) + f(n - 1)
  }

  lemma SumNone<T>(f: nat -> multiset<T>)
    ensures Sum(f, 0) == multiset{}
  {
  }

  lemma SumNext<T>(f: nat -> multiset<T>, n: nat)
    ensures Sum(f, n + 1) == Sum(f, n) + f(n)
  {
  }

  lemma {:induction false} SumEqual<T>(f: nat -> multiset<T>, g: nat -> multiset<T>, n: nat)
    requires forall i: nat :: i < n ==> f(i) == g(i)
    ensures Sum(f, n) == Sum(g, n)
  {
    if n > 0 { SumEqual(f, g, n - 1); }
  }

  lemma {:induction false} SumPlus<T>(f: nat -> multiset<T>, g: nat -> multiset<T>, n: nat)
    ensures Sum((i: nat) => f(i) + g(i), n) == Sum(f, n) + Sum(g, n)
  {
    if n > 0 { SumPlus(f, g, n - 1); }
  }

  lemma {:induction false} SumEmpty<T>(n: nat)
    ensures Sum<T>((i: nat) => multiset{}, n) == multiset{}
  {
    if n > 0 { SumEmpty<T>(n - 1); }
  }

  /** Adding x to the k-th bag adds x to the sum. */
  lemma {:induction false} SumOne<T>(f: nat -> multiset<T>, g: nat -> multiset<T>, n: nat, k: nat, x: multiset<T>)
    requires k < n && g(k) == f(k) + x && forall i: nat :: i < n && i != k ==> g(i) == f(i)
    ensures Sum(g, n) == Sum(f, n) + x
  {
    if k == n - 1 { SumEqual(f, g, n - 1); } else { SumOne(f, g, n - 1, k, x); }
  }

  /** Rows of a matrix of bags can be summed first, or columns. */
  lemma {:induction false} SumSwap<T>(f: (nat, nat) -> multiset<T>, m: nat, n: nat)
    ensures Sum((i: nat) => Sum((j: nat) => f(i, j), n), m) == Sum((j: nat) => Sum((i: nat) => f(i, j), m), n)
  {
    if m == 0 {
      SumEqual((j: nat) => Sum((i: nat) => f(i, j), m), (j: nat) => multiset{}, n);
      SumEmpty<T>(n);
    } else {
      SumSwap(f, m - 1, n);
      var g, h := (j: nat) => Sum((i: nat) => f(i, j), m - 1), (j: nat) => f(m - 1, j);
      SumPlus(g, h, n);
      SumEqual((j: nat) => Sum((i: nat) => f(i, j), m), (j: nat) => g(j) + h(j), n);
    }
  }

  function Flatten<T>(lists: seq<seq<T>>): seq<T> {
    if lists == [] then [] else Flatten(lists[..|lists| - 1]) + lists[|lists| - 1]
  }

  lemma {:induction false} FlattenCat<T>(a: seq<seq<T>>, b: seq<seq<T>>)
    ensures Flatten(a + b) == Flatten(a) + Flatten(b)
  {
    if b == [] {
      assert a + b == a;
    } else {
      FlattenCat(a, b[..|b| - 1]);
      assert (a + b)[..|a + b| - 1] == a + b[..|b| - 1];
    }
  }

  lemma FlattenEnds<T>(lists: seq<seq<T>>)
    ensures Flatten(lists[..0]) == [] && lists[..|lists|] == lists
  {
  }

  lemma FlattenNext<T>(lists: seq<seq<T>>, t: nat)
    requires t < |lists|
    ensures Flatten(lists[..t + 1]) == Flatten(lists[..t]) + lists[t]
  {
    assert lists[..t + 1][..t] == lists[..t];
  }

  lemma FlattenAt<T>(lists: seq<seq<T>>, t: nat, j: nat)
    requires t < |lists| && j < |lists[t]|
    ensures var n := |Flatten(lists[..t])| + j;
      n < |Flatten(lists[..t + 1])| <= |Flatten(lists)| && Flatten(lists)[n] == lists[t][j]
  {
    assert lists == lists[..t + 1] + lists[t + 1..];
    FlattenNext(lists, t);
    FlattenCat(lists[..t + 1], lists[t + 1..]);
  }

  lemma {:induction false} FlattenBag<T>(lists: seq<seq<T>>, f: nat -> multiset<T>)
    requires forall i: nat :: i < |lists| ==> f(i) == multiset(lists[i])
    ensures multiset(Flatten(lists)) == Sum(f, |lists|)
  {
    if lists != [] {
      var a := lists[..|lists| - 1];
      forall i: nat | i < |a| ensures f(i) == multiset(a[i]) {}
      FlattenBag(a, f);
    }
  }

  lemma {:induction false} InSome<T>(lists: seq<seq<T>>, x: T) returns (t: nat)
    requires x in Flatten(lists)
    ensures t < |lists| && x in lists[t]
  {
    if x in lists[|lists| - 1] { t := |lists| - 1; } else { t := InSome(lists[..|lists| - 1], x); }
  }

  lemma {:induction false} SumSplit<T>(f: nat -> multiset<T>, m: nat, n: nat, g: nat -> multiset<T>)
    requires forall i: nat :: g(i) == f(m + i)
    ensures Sum(f, m + n) == Sum(f, m) + Sum(g, n)
  {
    if n > 0 {
      SumSplit(f, m, n - 1, g);
      assert Sum(f, m + n) == Sum(f, m + (n - 1)) + f(m + (n - 1));
    }
  }

  /** The bag of g(x) over the elements x of a list. */
  ghost function BagMap<S, T>(xs: seq<S>, g: S -> multiset<T>): multiset<T> {
    if xs == [] then multiset{} else BagMap(xs[..|xs| - 1], g) + g(xs[|xs| - 1])
  }

  lemma {:induction false} BagMapCat<S, T>(a: seq<S>, b: seq<S>, g: S -> multiset<T>)
    ensures BagMap(a + b, g) == BagMap(a, g) + BagMap(b, g)
  {
    if b == [] {
      assert a + b == a;
    } else {
      BagMapCat(a, b[..|b| - 1], g);
      assert (a + b)[..|a + b| - 1] == a + b[..|b| - 1];
    }
  }

  lemma {:induction false} BagMapEqual<S, T>(xs: seq<S>, g: S -> multiset<T>, h: S -> multiset<T>)
    requires forall x :: x in xs ==> g(x) == h(x)
    ensures BagMap(xs, g) == BagMap(xs, h)
  {
    if xs != [] { BagMapEqual(xs[..|xs| - 1], g, h); }
  }

  lemma PlusInjective<T>(a: multiset<T>, b: multiset<T>, c: multiset<T>)
    requires a + c == b + c
    ensures a == b
  {
    forall x ensures a[x] == b[x] { assert (a + c)[x] == (b + c)[x]; }
  }

  lemma Extract<S>(ys: seq<S>, x: S) returns (a: seq<S>, b: seq<S>)
    requires x in multiset(ys)
    ensures ys == a + [x] + b && multiset(ys) == multiset(a + b) + multiset{x}
  {
    assert x in ys;
    var k :| 0 <= k < |ys| && ys[k] == x;
    a, b := ys[..k], ys[k + 1..];
    assert ys == a + [x] + b;
  }

  lemma BagMapExtract<S, T>(a: seq<S>, x: S, b: seq<S>, g: S -> multiset<T>)
    ensures BagMap(a + [x] + b, g) == BagMap(a + b, g) + g(x)
  {
    BagMapCat(a + [x], b, g);
    BagMapCat(a, [x], g);
    BagMapCat(a, b, g);
    assert BagMap([x], g) == g(x);
  }

  /** The bag depends on which elements the list has, not on their order. */
  lemma {:induction false} BagMapPermutation<S, T>(xs: seq<S>, ys: seq<S>, g: S -> multiset<T>)
    requires multiset(xs) == multiset(ys)
    ensures BagMap(xs, g) == BagMap(ys, g)
    decreases |xs|
  {
    assert |multiset(xs)| == |xs| && |multiset(ys)| == |ys|;
    if xs != [] {
      var x, xs' := xs[|xs| - 1], xs[..|xs| - 1];
      assert xs == xs' + [x];
      var a, b := Extract(ys, x);
      assert multiset(xs) == multiset(xs') + multiset{x};
      assert multiset(xs') == multiset(a + b) by { PlusInjective(multiset(xs'), multiset(a + b), multiset{x}); }
      BagMapPermutation(xs', a + b, g);
      BagMapExtract(a, x, b, g);
    }
  }

  lemma {:induction false} BagMapIsSum<S, T>(xs: seq<S>, g: S -> multiset<T>, f: nat -> multiset<T>)
    requires forall i: nat :: i < |xs| ==> f(i) == g(xs[i])
    ensures BagMap(xs, g) == Sum(f, |xs|)
  {
    if xs != [] {
      var a := xs[..|xs| - 1];
      forall i: nat | i < |a| ensures f(i) == g(a[i]) {}
      BagMapIsSum(a, g, f);
    }
  }

  /** f(x) for every x, one list after the other: a loop that appends f(x) to its result. */
  ghost function FlatMap<S, T>(xs: seq<S>, f: S -> seq<T>): seq<T> {
    if xs == [] then [] else FlatMap(xs[..|xs| - 1], f) + f(xs[|xs| - 1])
  }

  lemma {:induction false} FlatMapBag<S, T>(xs: seq<S>, f: S -> seq<T>, g: S -> multiset<T>)
    requires forall x :: g(x) == multiset(f(x))
    ensures multiset(FlatMap(xs, f)) == BagMap(xs, g)
  {
    if xs != [] { FlatMapBag(xs[..|xs| - 1], f, g); }
  }

  lemma FlattenUpdate<T>(lists: seq<seq<T>>, t: nat, now: seq<T>, more: multiset<T>)
    requires t < |lists| && multiset(now) == multiset(lists[t]) + more
    ensures multiset(Flatten(lists[t := now])) == multiset(Flatten(lists)) + more
  {
    var a, b := lists[..t], lists[t + 1..];
    assert lists == a + [lists[t]] + b && lists[t := now] == a + [now] + b;
    FlattenThree(a, lists[t], b);
    FlattenThree(a, now, b);
  }

  lemma FlattenThree<T>(a: seq<seq<T>>, x: seq<T>, b: seq<seq<T>>)
    ensures Flatten(a + [x] + b) == Flatten(a) + x + Flatten(b)
  {
    FlattenCat(a + [x], b);
    FlattenCat(a, [x]);
    assert Flatten([x]) == x;
  }

  // A termination measure: what is left to do, worker by worker.

  ghost function Total(left: seq<nat>): nat {
    if left == [] then 0 else Total(left[..|left| - 1]) + left[|left| - 1]
  }

  lemma {:induction false} TotalDrops(left: seq<nat>, t: nat)
    requires t < |left| && left[t] > 0
    ensures Total(left[t := left[t] - 1]) == Total(left) - 1
  {
    var left' := left[t := left[t] - 1];
    if t < |left| - 1 {
      TotalDrops(left[..|left| - 1], t);
      assert left'[..|left| - 1] == left[..|left| - 1][t := left[t] - 1];
    } else {
      assert left'[..|left| - 1] == left[..|left| - 1];
    }
  }

  lemma {:induction false} TotalUpdate(xs: seq<nat>, t: nat, x: nat)
    requires t < |xs|
    ensures Total(xs[t := x]) == Total(xs) - xs[t] + x
  {
    var n := |xs| - 1;
    if t < n {
      TotalUpdate(xs[..n], t, x);
      assert xs[t := x][..n] == xs[..n][t := x];
    } else {
      assert xs[t := x][..n] == xs[..n];
    }
  }

  lemma {:induction false} TotalZero(xs: seq<nat>)
    ensures Total(xs) == 0 <==> forall t :: 0 <= t < |xs| ==> xs[t] == 0
  {
    if xs != [] { TotalZero(xs[..|xs| - 1]); }
  }

  lemma {:induction false} TotalOnes(xs: seq<nat>, x: nat)
    requires forall t :: 0 <= t < |xs| ==> xs[t] == x
    ensures Total(xs) == |xs| * x
  {
    if xs != [] { TotalOnes(xs[..|xs| - 1], x); }
  }
}
