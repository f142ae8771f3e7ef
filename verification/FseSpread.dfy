/** What an FSE decoding table is (zstd-zero/src/fse.rs lines 98-187, RFC 8878
    section 4.1.1), stated without the in-place loops.

    Low-probability symbols sit at the top of the table, the others are spread
    by a fixed stride through the slots below them. `FseTable` proves that the
    loops build exactly this; here is why it is a table at all: an odd stride
    modulo a power of two is a permutation. */
module FseSpread {
  import opened Numbers
  import opened Counting

  // ----- normalized counts

  function Norm(probability: i16): (count: nat)
  {
    if probability == -1 then 1 else if probability > 0 then probability else 0
  }

  function Total(ps: seq<i16>): nat
  {
    if ps == [] then 0 else Total(ps[..|ps| - 1]) + Norm(ps[|ps| - 1])
  }

  /** The symbols of probability "less than one", in symbol order. */
  function Lows(ps: seq<i16>): seq<nat>
  {
    if ps == [] then []
    else Lows(ps[..|ps| - 1]) + if ps[|ps| - 1] == -1 then [|ps| - 1] else []
  }

  /** Every other symbol as often as its probability, in symbol order. */
  function Flat(ps: seq<i16>): seq<nat>
  {
    if ps == [] then []
    else Flat(ps[..|ps| - 1]) + Repeat(ps[|ps| - 1], |ps| - 1)
  }

  function Repeat(times: int, symbol: nat): (s: seq<nat>)
    ensures |s| == if times > 0 then times else 0
    ensures forall i :: 0 <= i < |s| ==> s[i] == symbol
  {
    if times <= 0 then [] else seq(times, _ => symbol)
  }

  lemma {:induction false} TotalSplits(ps: seq<i16>)
    ensures Total(ps) == |Lows(ps)| + |Flat(ps)|
  {
    if ps != [] {
      TotalSplits(ps[..|ps| - 1]);
    }
  }

  /** Lows and Flat together name each symbol as often as its normalized count. */
  lemma {:induction false} CountsAreNorms(ps: seq<i16>, symbol: nat)
    ensures CountOf(Lows(ps), symbol) + CountOf(Flat(ps), symbol) == if symbol < |ps| then Norm(ps[symbol]) else 0
  {
    if ps != [] {
      var n := |ps| - 1;
      CountsAreNorms(ps[..n], symbol);
      var low := if ps[n] == -1 then [n] else [];
      CountOfConcat(Lows(ps[..n]), low, symbol);
      CountOfConcat(Flat(ps[..n]), Repeat(ps[n], n), symbol);
      CountOfUniform(low, n, symbol);
      CountOfUniform(Repeat(ps[n], n), n, symbol);
    }
  }

  // ----- the stride

  function Step(size: nat): nat
  {
    size / 2 + size / 8 + 3
  }

  /** One stride: masking with `size - 1` is reduction modulo the size, a power of two. */
  function Stride(size: nat, position: nat): (next: nat)
    requires size > 0
    ensures next < size
  {
    (position + Step(size)) % size
  }

  /** The walk's position after j strides. */
  function Orbit(size: nat, j: nat): (position: nat)
    requires size > 0
    ensures position < size
  {
    if j == 0 then 0 else Stride(size, Orbit(size, j - 1))
  }

  /** The slots below `high` in the order of the first j strides. */
  function Visits(size: nat, high: nat, j: nat): (slots: seq<nat>)
    requires size > 0
    ensures |slots| <= j
    ensures forall k :: 0 <= k < |slots| ==> slots[k] < high && slots[k] < size
  {
    if j == 0 then []
    else Visits(size, high, j - 1) + if Orbit(size, j - 1) < high then [Orbit(size, j - 1)] else []
  }

  lemma {:induction false} VisitsGrow(size: nat, high: nat, i: nat, j: nat)
    requires size > 0 && i <= j
    ensures Visits(size, high, i) <= Visits(size, high, j)
  {
    if i < j {
      VisitsGrow(size, high, i, j - 1);
    }
  }

  /** The stride is odd for every table size except 2 and 8, where it is a multiple of the size. */
  lemma StrideShape(log: nat)
    requires 1 <= log <= 9
    ensures Step(Pow2(log)) % 2 == 1 <==> log != 1 && log != 3
    ensures log == 1 || log == 3 ==> Step(Pow2(log)) == Pow2(log) || Step(Pow2(log)) == 2 * Pow2(log)
  {
    Pow2Values();
  }

  /** On the two degenerate sizes the walk never leaves slot 0. */
  lemma {:induction false} StuckAtZero(log: nat, high: nat, j: nat)
    requires log == 1 || log == 3
    ensures Orbit(Pow2(log), j) == 0
    ensures |Visits(Pow2(log), high, j)| == if high > 0 then j else 0
  {
    StrideShape(log);
    Pow2Values();
    if j > 0 {
      StuckAtZero(log, high, j - 1);
    }
  }

  lemma {:induction false} OrbitClosed(size: nat, j: nat) returns (q: nat)
    requires size > 0
    ensures j * Step(size) == q * size + Orbit(size, j)
  {
    hide Step, Stride;
    if j == 0 {
      q := 0;
    } else {
      var q' := OrbitClosed(size, j - 1);
      var carry := StrideCarry(size, Orbit(size, j - 1));
      q := q' + carry;
      OneMoreStride(j, Step(size), size, q', carry, Orbit(size, j - 1), Orbit(size, j));
    }
  }

  lemma StrideCarry(size: nat, position: nat) returns (carry: nat)
    requires size > 0
    ensures position + Step(size) == carry * size + Stride(size, position)
  {
    carry := (position + Step(size)) / size;
    DivMod(position + Step(size), size);
  }

  lemma OneMoreStride(j: nat, step: nat, size: nat, q: nat, carry: nat, before: nat, after: nat)
    requires j > 0
    requires (j - 1) * step == q * size + before
    requires before + step == carry * size + after
    ensures j * step == (q + carry) * size + after
  {
  }

  /** An odd factor does not help divisibility by a power of two. */
  lemma {:induction false} OddCancels(n: nat, odd: nat, b: nat, k: nat) returns (c: nat)
    requires odd % 2 == 1
    requires odd * b == Pow2(n) * k
    ensures b == Pow2(n) * c
  {
    if n == 0 {
      c := b;
    } else {
      var p := Pow2(n - 1);
      MulAssociative(2, p, k);
      ProductParity(odd, b, p * k);
      var h := b / 2;
      assert b == 2 * h;
      MulAssociative(odd, 2, h);
      MulAssociative(2, odd, h);
      assert odd * h == p * k;
      c := OddCancels(n - 1, odd, h, k);
      MulAssociative(2, p, c);
    }
  }

  lemma ProductParity(odd: nat, b: nat, half: nat)
    requires odd % 2 == 1 && odd * b == 2 * half
    ensures b % 2 == 0
  {
    var i, j := odd / 2, b / 2;
    assert odd == 2 * i + 1 && b == 2 * j + b % 2;
    MulDistributive(b, 2 * i, 1);
    MulAssociative(2, i, b);
    assert odd * b == 2 * (i * b + j) + b % 2;
  }

  lemma OrbitInjective(log: nat, i: nat, j: nat)
    requires Step(Pow2(log)) % 2 == 1
    requires i < j < Pow2(log)
    ensures Orbit(Pow2(log), i) != Orbit(Pow2(log), j)
  {
    hide Step, Orbit;
    var size := Pow2(log);
    var step := Step(size);
    if Orbit(size, i) == Orbit(size, j) {
      var qi := OrbitClosed(size, i);
      var qj := OrbitClosed(size, j);
      MulDistributive(step, j - i, i);
      MulDistributive(size, qj - qi, qi);
      assert (j - i) * step == (qj - qi) * size;
      MulMonotone(0, j - i, step);
      SignOfFactor(qj - qi, size);
      var c := OddCancels(log, step, j - i, qj - qi);
      if c > 0 { MulMonotone(1, c, size); }
    }
  }

  /** After a full round the walk is back at slot 0. */
  lemma OrbitReturns(log: nat)
    ensures Orbit(Pow2(log), Pow2(log)) == 0
  {
    hide Step, Orbit;
    var size := Pow2(log);
    var q := OrbitClosed(size, size);
    DivModUnique(size * Step(size), size, Step(size), 0);
    DivModUnique(size * Step(size), size, q, Orbit(size, size));
  }

  lemma {:induction false} VisitsAreOrbit(size: nat, high: nat, j: nat, p: nat)
    requires size > 0 && p in Visits(size, high, j)
    ensures exists t: nat :: t < j && Orbit(size, t) == p
  {
    hide Orbit;
    assert j > 0;
    if p in Visits(size, high, j - 1) {
      VisitsAreOrbit(size, high, j - 1, p);
    } else {
      assert Orbit(size, j - 1) == p;
    }
  }

  lemma {:induction false} OrbitIsVisited(size: nat, high: nat, j: nat, t: nat)
    requires size > 0 && t < j && Orbit(size, t) < high
    ensures Orbit(size, t) in Visits(size, high, j)
  {
    hide Orbit;
    if t < j - 1 {
      OrbitIsVisited(size, high, j - 1, t);
    }
  }

  lemma {:induction false} VisitsDistinct(log: nat, high: nat, j: nat)
    requires Step(Pow2(log)) % 2 == 1 && j <= Pow2(log)
    ensures Distinct(Visits(Pow2(log), high, j))
  {
    hide Orbit, Step;
    if j > 0 {
      VisitsDistinct(log, high, j - 1);
      var p := Orbit(Pow2(log), j - 1);
      if p in Visits(Pow2(log), high, j - 1) {
        VisitsAreOrbit(Pow2(log), high, j - 1, p);
        var t: nat :| t < j - 1 && Orbit(Pow2(log), t) == p;
        OrbitInjective(log, t, j - 1);
      }
    }
  }

  /** With an odd stride one round visits every slot below `high` exactly once. */
  lemma VisitsPermute(log: nat, high: nat)
    requires Step(Pow2(log)) % 2 == 1 && high <= Pow2(log)
    ensures Distinct(Visits(Pow2(log), high, Pow2(log)))
    ensures |Visits(Pow2(log), high, Pow2(log))| == high
  {
    hide Orbit, Step, Pow2;
    var size := Pow2(log);
    var all := Visits(size, size, size);
    VisitsDistinct(log, high, size);
    VisitsDistinct(log, size, size);
    AllVisited(size, size);
    Pigeonhole(all, size);
    forall p | 0 <= p < high ensures p in Visits(size, high, size) {
      assert p in all;
      VisitsAreOrbit(size, size, size, p);
      var t: nat :| t < size && Orbit(size, t) == p;
      OrbitIsVisited(size, high, size, t);
    }
    CoverSize(Visits(size, high, size), high);
  }

  lemma {:induction false} AllVisited(size: nat, j: nat)
    requires size > 0
    ensures |Visits(size, size, j)| == j
  {
    hide Orbit;
    if j > 0 {
      AllVisited(size, j - 1);
    }
  }

  /** While slots are missing the walk has not come round. */
  lemma WalkBudget(log: nat, high: nat, j: nat)
    requires 1 <= log <= 9 && high <= Pow2(log)
    requires j <= Pow2(log) && |Visits(Pow2(log), high, j)| < high
    ensures j < Pow2(log)
  {
    StrideShape(log);
    if log == 1 || log == 3 {
      StuckAtZero(log, high, j);
    } else {
      VisitsPermute(log, high);
    }
  }

  /** Once every slot is taken, the next position below `high` is slot 0 again. */
  lemma WalkEnds(log: nat, high: nat, j: nat)
    requires 1 <= log <= 9 && 0 < high <= Pow2(log)
    requires j <= Pow2(log) && |Visits(Pow2(log), high, j)| == high
    requires Orbit(Pow2(log), j) < high
    ensures Orbit(Pow2(log), j) == 0
  {
    hide Pow2, Orbit, Step;
    var size := Pow2(log);
    StrideShape(log);
    if log == 1 || log == 3 {
      StuckAtZero(log, high, j);
    } else {
      VisitsPermute(log, high);
      OrbitReturns(log);
      if j < size {
        VisitsGrow(size, high, j + 1, size);
      }
    }
  }
}
