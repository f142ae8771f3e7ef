/** Finite counting: the pigeonhole principle and counts under a permutation. */
module Counting {

  ghost predicate Distinct(xs: seq<nat>)
  {
    forall i, j :: 0 <= i < j < |xs| ==> xs[i] != xs[j]
  }

  ghost function Range(n: nat): (s: set<nat>)
    ensures forall i: nat :: i in s <==> i < n
  {
    if n == 0 then {} else Range(n - 1) + {n - 1}
  }

  ghost function Elements(xs: seq<nat>): (s: set<nat>)
  {
    set x | x in xs
  }

  lemma {:induction false} RangeSize(n: nat)
    ensures |Range(n)| == n
  {
    if n > 0 {
      RangeSize(n - 1);
    }
  }

  lemma {:induction false} DistinctSize(xs: seq<nat>)
    requires Distinct(xs)
    ensures |Elements(xs)| == |xs|
  {
    if xs == [] {
      assert Elements(xs) == {};
    } else {
      var n := |xs| - 1;
      DistinctSize(xs[..n]);
      assert xs == xs[..n] + [xs[n]];
      assert Elements(xs) == Elements(xs[..n]) + {xs[n]};
    }
  }

  lemma {:induction false} SubsetOfEqualSize<T>(small: set<T>, large: set<T>)
    requires small <= large && |small| == |large|
    ensures small == large
  {
    assert large == small + (large - small);
    assert |large| == |small| + |large - small|;
    assert large - small == {};
  }

  /** n different numbers below n are all of them. */
  lemma Pigeonhole(xs: seq<nat>, n: nat)
    requires Distinct(xs) && |xs| == n
    requires forall i :: 0 <= i < |xs| ==> xs[i] < n
    ensures forall p :: 0 <= p < n ==> p in xs
  {
    RangeSize(n);
    DistinctSize(xs);
    hide Distinct;
    forall x | x in Elements(xs) ensures x in Range(n) {
      var i :| 0 <= i < |xs| && xs[i] == x;
    }
    SubsetOfEqualSize(Elements(xs), Range(n));
    forall p | 0 <= p < n ensures p in xs {
      assert p in Elements(xs);
    }
  }

  /** Different numbers that cover exactly the numbers below n are n numbers. */
  lemma CoverSize(xs: seq<nat>, n: nat)
    requires Distinct(xs)
    requires forall i :: 0 <= i < |xs| ==> xs[i] < n
    requires forall p :: 0 <= p < n ==> p in xs
    ensures |xs| == n
  {
    RangeSize(n);
    DistinctSize(xs);
    forall x | x in Elements(xs) ensures x in Range(n) {
      var i :| 0 <= i < |xs| && xs[i] == x;
    }
    assert Elements(xs) == Range(n);
  }

  // ----- occurrences

  function CountOf(xs: seq<nat>, symbol: nat): (count: nat)
    ensures count <= |xs|
  {
    if xs == [] then 0
    else CountOf(xs[..|xs| - 1], symbol) + if xs[|xs| - 1] == symbol then 1 else 0
  }

  lemma {:induction false} CountOfConcat(xs: seq<nat>, ys: seq<nat>, symbol: nat)
    ensures CountOf(xs + ys, symbol) == CountOf(xs, symbol) + CountOf(ys, symbol)
  {
    if ys == [] {
      assert xs + ys == xs;
    } else {
      assert (xs + ys)[..|xs + ys| - 1] == xs + ys[..|ys| - 1];
      CountOfConcat(xs, ys[..|ys| - 1], symbol);
    }
  }

  lemma {:induction false} CountOfUniform(xs: seq<nat>, symbol: nat, other: nat)
    requires forall i :: 0 <= i < |xs| ==> xs[i] == symbol
    ensures CountOf(xs, other) == if other == symbol then |xs| else 0
  {
    if xs != [] {
      CountOfUniform(xs[..|xs| - 1], symbol, other);
    }
  }

  lemma {:induction false} CountOfPrefix(xs: seq<nat>, i: nat, j: nat, symbol: nat)
    requires i <= j <= |xs|
    ensures CountOf(xs[..i], symbol) <= CountOf(xs[..j], symbol)
    ensures i < j && xs[i] == symbol ==> CountOf(xs[..i], symbol) < CountOf(xs[..j], symbol)
  {
    if i < j {
      assert xs[..i + 1][..i] == xs[..i];
      assert xs[..j] == xs[..i + 1] + xs[i + 1..j];
      CountOfConcat(xs[..i + 1], xs[i + 1..j], symbol);
    }
  }

  /** The m-th occurrence of a symbol. */
  lemma {:induction false} NthOccurrence(xs: seq<nat>, symbol: nat, m: nat) returns (p: nat)
    requires m < CountOf(xs, symbol)
    ensures p < |xs| && xs[p] == symbol && CountOf(xs[..p], symbol) == m
  {
    var n := |xs| - 1;
    if m < CountOf(xs[..n], symbol) {
      p := NthOccurrence(xs[..n], symbol, m);
      assert xs[..n][..p] == xs[..p];
    } else {
      p := n;
    }
  }

  ghost function Where(xs: seq<nat>, symbol: nat): (s: set<nat>)
  {
    set i: nat | i < |xs| && xs[i] == symbol
  }

  lemma {:induction false} WhereSize(xs: seq<nat>, symbol: nat)
    ensures |Where(xs, symbol)| == CountOf(xs, symbol)
  {
    if xs == [] {
      assert Where(xs, symbol) == {};
    } else {
      var n := |xs| - 1;
      WhereSize(xs[..n], symbol);
      assert Where(xs, symbol) == Where(xs[..n], symbol) + if xs[n] == symbol then {n} else {};
    }
  }

  ghost function Image(s: set<nat>, f: seq<nat>): (t: set<nat>)
    requires forall x :: x in s ==> x < |f|
  {
    set x | x in s :: f[x]
  }

  lemma {:induction false} ImageSize(s: set<nat>, f: seq<nat>)
    requires Distinct(f)
    requires forall x :: x in s ==> x < |f|
    ensures |Image(s, f)| == |s|
    decreases |s|
  {
    if s == {} {
      assert Image(s, f) == {};
    } else {
      var x :| x in s;
      ImageSize(s - {x}, f);
      assert Image(s, f) == Image(s - {x}, f) + {f[x]};
    }
  }

  function Gather(xs: seq<nat>, perm: seq<nat>): (ys: seq<nat>)
    requires forall k :: 0 <= k < |perm| ==> perm[k] < |xs|
    ensures |ys| == |perm| && forall k :: 0 <= k < |perm| ==> ys[k] == xs[perm[k]]
  {
    seq(|perm|, k requires 0 <= k < |perm| => xs[perm[k]])
  }

  /** A permutation of the positions keeps every count. */
  lemma PermutedCount(xs: seq<nat>, perm: seq<nat>, symbol: nat)
    requires Distinct(perm) && |perm| == |xs|
    requires forall k :: 0 <= k < |perm| ==> perm[k] < |xs|
    ensures CountOf(Gather(xs, perm), symbol) == CountOf(xs, symbol)
  {
    var ys := Gather(xs, perm);
    var image := Image(Where(ys, symbol), perm);
    Pigeonhole(perm, |xs|);
    forall i | i in Where(xs, symbol) ensures i in image {
      assert i in perm;
      var k :| 0 <= k < |perm| && perm[k] == i;
      assert k in Where(ys, symbol);
    }
    assert image == Where(xs, symbol);
    ImageSize(Where(ys, symbol), perm);
    WhereSize(xs, symbol);
    WhereSize(ys, symbol);
  }
}
