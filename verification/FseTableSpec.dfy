/** The FSE decoding table as a value, and why it decodes: every symbol owns
    exactly as many slots as its normalized count, and the next-state intervals
    of those slots tile the state space (zstd-zero/src/fse.rs lines 98-187). */
module FseTableSpec {
  import opened Numbers
  import opened Counting
  import opened FseSpread

  const MAX_TABLE_LOG: nat := 9
  const MAX_SYMBOLS: nat := 256

  datatype Entry = Entry(baseline: u16, bits: u8, symbol: u8)

  // ----- symbols

  ghost predicate Normalized(ps: seq<i16>, log: nat)
  {
    1 <= log <= MAX_TABLE_LOG && 0 < |ps| <= MAX_SYMBOLS && Total(ps) == Pow2(log)
  }

  /** The low-probability symbols fill the table from its top; the other slots still hold symbol 0. */
  function Base(size: nat, lows: seq<nat>): (symbols: seq<nat>)
    requires |lows| <= size
    ensures |symbols| == size
  {
    seq(size, p requires 0 <= p < size => if size - 1 - p < |lows| then lows[size - 1 - p] else 0)
  }

  /** Writes flat[0], flat[1], ... to slots[0], slots[1], ... one after the other. */
  function Spread(base: seq<nat>, slots: seq<nat>, flat: seq<nat>): (symbols: seq<nat>)
    requires |flat| <= |slots|
    requires forall k :: 0 <= k < |slots| ==> slots[k] < |base|
    ensures |symbols| == |base|
  {
    if flat == [] then base
    else
      var n := |flat| - 1;
      Spread(base, slots, flat[..n])[slots[n] := flat[n]]
  }

  lemma EnoughSlots(ps: seq<i16>, log: nat)
    requires Normalized(ps, log)
    ensures |Lows(ps)| + |Flat(ps)| == Pow2(log)
    ensures |Flat(ps)| <= |Visits(Pow2(log), |Flat(ps)|, Pow2(log))|
  {
    TotalSplits(ps);
    StrideShape(log);
    if log == 1 || log == 3 {
      StuckAtZero(log, |Flat(ps)|, Pow2(log));
    } else {
      VisitsPermute(log, |Flat(ps)|);
    }
  }

  ghost function Slots(ps: seq<i16>, log: nat): (slots: seq<nat>)
    requires Normalized(ps, log)
    ensures |Flat(ps)| <= |slots|
    ensures forall k :: 0 <= k < |slots| ==> slots[k] < |Flat(ps)| && slots[k] < Pow2(log)
  {
    EnoughSlots(ps, log);
    Visits(Pow2(log), |Flat(ps)|, Pow2(log))
  }

  lemma {:induction false} LowsInRange(ps: seq<i16>)
    ensures forall k :: 0 <= k < |Lows(ps)| ==> Lows(ps)[k] < |ps| && ps[Lows(ps)[k]] == -1
  {
    if ps != [] {
      LowsInRange(ps[..|ps| - 1]);
    }
  }

  lemma {:induction false} FlatInRange(ps: seq<i16>)
    ensures forall k :: 0 <= k < |Flat(ps)| ==> Flat(ps)[k] < |ps|
  {
    if ps != [] {
      FlatInRange(ps[..|ps| - 1]);
    }
  }

  lemma {:induction false} SpreadInRange(base: seq<nat>, slots: seq<nat>, flat: seq<nat>, bound: nat)
    requires |flat| <= |slots|
    requires forall k :: 0 <= k < |slots| ==> slots[k] < |base|
    requires forall p :: 0 <= p < |base| ==> base[p] < bound
    requires forall k :: 0 <= k < |flat| ==> flat[k] < bound
    ensures forall p :: 0 <= p < |base| ==> Spread(base, slots, flat)[p] < bound
  {
    if flat != [] {
      SpreadInRange(base, slots, flat[..|flat| - 1], bound);
    }
  }

  ghost function Symbols(ps: seq<i16>, log: nat): (symbols: seq<nat>)
    requires Normalized(ps, log)
    ensures |symbols| == Pow2(log)
    ensures forall p :: 0 <= p < |symbols| ==> symbols[p] < |ps|
  {
    EnoughSlots(ps, log);
    LowsInRange(ps);
    FlatInRange(ps);
    var base := Base(Pow2(log), Lows(ps));
    SpreadInRange(base, Slots(ps, log), Flat(ps), |ps|);
    Spread(base, Slots(ps, log), Flat(ps))
  }

  /** Writes to different slots do not disturb each other. */
  lemma {:induction false} SpreadAt(base: seq<nat>, slots: seq<nat>, flat: seq<nat>)
    requires |flat| <= |slots| && Distinct(slots)
    requires forall k :: 0 <= k < |slots| ==> slots[k] < |base|
    ensures forall k :: 0 <= k < |flat| ==> Spread(base, slots, flat)[slots[k]] == flat[k]
    ensures forall p :: 0 <= p < |base| && p !in slots[..|flat|] ==> Spread(base, slots, flat)[p] == base[p]
  {
    if flat != [] {
      var n := |flat| - 1;
      SpreadAt(base, slots, flat[..n]);
      assert slots[..|flat|] == slots[..n] + [slots[n]];
    }
  }

  ghost function TopDown(size: nat, count: nat): (slots: seq<nat>)
    requires count <= size
    ensures |slots| == count
    ensures forall k :: 0 <= k < count ==> slots[k] == size - 1 - k
  {
    seq(count, k requires 0 <= k < count => size - 1 - k)
  }

  /** Every slot of the table, in the order in which `Flat(ps) + Lows(ps)` is written to it. */
  ghost function FillOrder(ps: seq<i16>, log: nat): (perm: seq<nat>)
    requires Normalized(ps, log)
    ensures forall k :: 0 <= k < |perm| ==> perm[k] < Pow2(log)
  {
    EnoughSlots(ps, log);
    Slots(ps, log) + TopDown(Pow2(log), |Lows(ps)|)
  }

  lemma SymbolsGathered(ps: seq<i16>, log: nat)
    requires Normalized(ps, log) && log != 1 && log != 3
    ensures Distinct(FillOrder(ps, log)) && |FillOrder(ps, log)| == Pow2(log)
    ensures Gather(Symbols(ps, log), FillOrder(ps, log)) == Flat(ps) + Lows(ps)
  {
    hide Lows, Flat, Spread, Visits, Pow2, Step, Norm, Total, Orbit;
    var size, high := Pow2(log), |Flat(ps)|;
    EnoughSlots(ps, log);
    var slots, perm := Slots(ps, log), FillOrder(ps, log);
    var base := Base(size, Lows(ps));
    StrideShape(log);
    VisitsPermute(log, high);
    var top := TopDown(size, |Lows(ps)|);
    assert Distinct(top);
    DistinctConcat(slots, top, high);
    GatherSpread(base, slots, top, Flat(ps), Lows(ps));
  }

  lemma GatherSpread(base: seq<nat>, slots: seq<nat>, top: seq<nat>, flat: seq<nat>, lows: seq<nat>)
    requires |slots| == |flat| && |top| == |lows| && Distinct(slots)
    requires forall k :: 0 <= k < |slots| ==> slots[k] < |base| && slots[k] < |flat|
    requires forall k :: 0 <= k < |top| ==> |flat| <= top[k] < |base| && base[top[k]] == lows[k]
    ensures forall k :: 0 <= k < |slots| + |top| ==>
              Spread(base, slots, flat)[(slots + top)[k]] == (flat + lows)[k]
  {
    hide Distinct, Spread;
    SpreadAt(base, slots, flat);
    forall k | |slots| <= k < |slots| + |top|
      ensures Spread(base, slots, flat)[(slots + top)[k]] == (flat + lows)[k]
    {
      assert (slots + top)[k] == top[k - |slots|];
      assert top[k - |slots|] !in slots[..|flat|];
    }
  }

  lemma DistinctConcat(xs: seq<nat>, ys: seq<nat>, bound: nat)
    requires Distinct(xs) && Distinct(ys)
    requires forall i :: 0 <= i < |xs| ==> xs[i] < bound
    requires forall i :: 0 <= i < |ys| ==> bound <= ys[i]
    ensures Distinct(xs + ys)
  {
  }

  /** Each symbol gets exactly its normalized count of slots. */
  lemma SlotCount(ps: seq<i16>, log: nat, symbol: nat)
    requires Normalized(ps, log) && log != 1 && log != 3
    ensures CountOf(Symbols(ps, log), symbol) == if symbol < |ps| then Norm(ps[symbol]) else 0
  {
    hide Symbols, Lows, Flat, CountOf, Distinct;
    SymbolsGathered(ps, log);
    PermutedCount(Symbols(ps, log), FillOrder(ps, log), symbol);
    CountOfConcat(Flat(ps), Lows(ps), symbol);
    CountsAreNorms(ps, symbol);
  }

  // ----- next states

  /** Bits to read after the slot that holds counter value x. */
  function BitsFor(x: nat, log: nat): (bits: nat)
    requires 0 < x < 2 * Pow2(log)
    ensures bits <= log && Pow2(log) <= x * Pow2(bits) < 2 * Pow2(log)
  {
    assert Log2(x) <= log by {
      if log < Log2(x) { Pow2Monotone(log, Log2(x)); }
    }
    ShiftedIntoRange(x, Log2(x), log - Log2(x));
    log - Log2(x)
  }

  lemma ShiftedIntoRange(x: nat, k: nat, b: nat)
    requires Pow2(k) <= x < 2 * Pow2(k)
    ensures Pow2(k + b) <= x * Pow2(b) < 2 * Pow2(k + b)
  {
    Pow2Add(k, b);
    MulMonotone(Pow2(k), x, Pow2(b));
    MulMonotone(x + 1, 2 * Pow2(k), Pow2(b));
    MulAssociative(2, Pow2(k), Pow2(b));
    MulDistributive(Pow2(b), x, 1);
  }

  function BaselineFor(x: nat, log: nat): (baseline: nat)
    requires 0 < x < 2 * Pow2(log)
    ensures baseline < Pow2(log)
  {
    x * Pow2(BitsFor(x, log)) - Pow2(log)
  }

  /** Counter value of slot p: the symbol's count, plus one for each earlier slot of that symbol. */
  ghost function Counter(ps: seq<i16>, symbols: seq<nat>, p: nat): nat
    requires p < |symbols| && symbols[p] < |ps|
  {
    Norm(ps[symbols[p]]) + CountOf(symbols[..p], symbols[p])
  }

  lemma {:induction false} NormBelowTotal(ps: seq<i16>, symbol: nat)
    requires symbol < |ps|
    ensures Norm(ps[symbol]) <= Total(ps)
  {
    if symbol < |ps| - 1 {
      NormBelowTotal(ps[..|ps| - 1], symbol);
    }
  }

  /** The slot's symbol has a count. */
  ghost predicate HasCount(ps: seq<i16>, log: nat, p: nat)
    requires Normalized(ps, log) && p < Pow2(log)
  {
    Norm(ps[Symbols(ps, log)[p]]) > 0
  }

  /** A table can be built: every symbol that got a slot has a count. */
  ghost predicate Buildable(ps: seq<i16>, log: nat)
  {
    Normalized(ps, log) && forall p :: 0 <= p < Pow2(log) ==> HasCount(ps, log, p)
  }

  /** The entry of a slot with counter value x. */
  function EntryFor(x: nat, log: nat, symbol: u8): (entry: Entry)
    requires log <= MAX_TABLE_LOG && 0 < x < 2 * Pow2(log)
  {
    LogFits(log);
    Entry(BaselineFor(x, log), BitsFor(x, log), symbol)
  }

  ghost function EntryAt(ps: seq<i16>, log: nat, p: nat): (entry: Entry)
    requires Normalized(ps, log) && p < Pow2(log) && HasCount(ps, log, p)
  {
    CounterFits(ps, log, p);
    EntryFor(Counter(ps, Symbols(ps, log), p), log, Symbols(ps, log)[p])
  }

  lemma CounterFits(ps: seq<i16>, log: nat, p: nat)
    requires Normalized(ps, log) && p < Pow2(log)
    ensures Counter(ps, Symbols(ps, log), p) < 2 * Pow2(log) <= 1024
  {
    hide Symbols, CountOf, Total;
    NormBelowTotal(ps, Symbols(ps, log)[p]);
    LogFits(log);
  }

  lemma LogFits(log: nat)
    requires log <= 9
    ensures Pow2(log) <= 512
  {
    Pow2Values();
    Pow2Monotone(log, 9);
  }

  ghost function Entries(ps: seq<i16>, log: nat): (entries: seq<Entry>)
    requires Buildable(ps, log)
    ensures |entries| == Pow2(log)
  {
    seq(Pow2(log), p requires 0 <= p < Pow2(log) => EntryAt(ps, log, p))
  }

  /** With an odd stride every distribution that sums to the table size builds. */
  lemma AlwaysBuildable(ps: seq<i16>, log: nat)
    requires Normalized(ps, log) && log != 1 && log != 3
    ensures Buildable(ps, log)
  {
    hide Symbols, CountOf;
    var symbols := Symbols(ps, log);
    forall p | 0 <= p < Pow2(log) ensures HasCount(ps, log, p) {
      SlotCount(ps, log, symbols[p]);
      CountOfPrefix(symbols, p, |symbols|, symbols[p]);
      assert symbols[..|symbols|] == symbols;
    }
  }

  /** On the two degenerate sizes some distributions of the right total do not build:
      a symbol without a count keeps a slot. So the stride works exactly for the other sizes. */
  lemma StrideDecides(log: nat)
    requires 1 <= log <= MAX_TABLE_LOG
    ensures (forall ps :: Normalized(ps, log) ==> Buildable(ps, log)) <==> log != 1 && log != 3
  {
    if log == 1 || log == 3 {
      var ps := DegenerateExample(log);
    } else {
      forall ps | Normalized(ps, log) ensures Buildable(ps, log) {
        AlwaysBuildable(ps, log);
      }
    }
  }

  /** [0, size]: the only symbol with a count is written over and over to slot 0, and slot 1 keeps symbol 0. */
  lemma DegenerateExample(log: nat) returns (ps: seq<i16>)
    requires log == 1 || log == 3
    ensures ps == [0, Pow2(log)]
    ensures Normalized(ps, log) && !Buildable(ps, log)
    ensures CountOf(Symbols(ps, log), 0) > 0 == Norm(ps[0])
  {
    Pow2Values();
    ps := [0, Pow2(log)];
    ExampleNormalized(ps, log);
    ExampleKeepsDefault(ps, log);
    assert !HasCount(ps, log, 1);
    hide *;
    OccursAt(Symbols(ps, log), 1);
  }

  lemma OccursAt(symbols: seq<nat>, p: nat)
    requires p < |symbols|
    ensures CountOf(symbols, symbols[p]) > 0
  {
    CountOfPrefix(symbols, p, |symbols|, symbols[p]);
    assert symbols[..|symbols|] == symbols;
  }

  lemma ExampleKeepsDefault(ps: seq<i16>, log: nat)
    requires Normalized(ps, log) && (log == 1 || log == 3) && Lows(ps) == [] && Pow2(log) > 1
    ensures Symbols(ps, log)[1] == 0
  {
    hide Flat, Total, Pow2, Visits, Orbit, Slots, Lows;
    SlotsAllZero(ps, log);
    EnoughSlots(ps, log);
    SpreadMisses(Base(Pow2(log), Lows(ps)), Slots(ps, log), Flat(ps), 1);
  }

  lemma ExampleNormalized(ps: seq<i16>, log: nat)
    requires (log == 1 || log == 3) && ps == [0, Pow2(log)]
    ensures Normalized(ps, log) && Pow2(log) > 1
    ensures Lows(ps) == []
  {
    Pow2Values();
    assert ps[..1] == [0] && ps[..1][..0] == [];
    assert Total(ps) == Total(ps[..1]) + Norm(ps[1]);
    assert Lows(ps) == Lows(ps[..1]);
  }

  lemma SlotsAllZero(ps: seq<i16>, log: nat)
    requires Normalized(ps, log) && (log == 1 || log == 3)
    ensures forall k :: 0 <= k < |Slots(ps, log)| ==> Slots(ps, log)[k] == 0
  {
    var slots := Slots(ps, log);
    forall k | 0 <= k < |slots| ensures slots[k] == 0 {
      VisitsAreOrbit(Pow2(log), |Flat(ps)|, Pow2(log), slots[k]);
      var t: nat :| t < Pow2(log) && Orbit(Pow2(log), t) == slots[k];
      StuckAtZero(log, |Flat(ps)|, t);
    }
  }

  lemma {:induction false} SpreadMisses(base: seq<nat>, slots: seq<nat>, flat: seq<nat>, p: nat)
    requires |flat| <= |slots| && p < |base|
    requires forall k :: 0 <= k < |slots| ==> slots[k] < |base| && slots[k] != p
    ensures Spread(base, slots, flat)[p] == base[p]
  {
    if flat != [] {
      SpreadMisses(base, slots, flat[..|flat| - 1], p);
    }
  }

  /** Which distributions build, one by one: on the degenerate sizes those that leave at most one slot below the
      low-probability symbols, or that give symbol 0, which the other slots keep, a count. */
  lemma BuildableExactly(ps: seq<i16>, log: nat)
    requires Normalized(ps, log)
    ensures Buildable(ps, log) <==> (log == 1 || log == 3 ==> Pow2(log) - |Lows(ps)| <= 1 || Norm(ps[0]) > 0)
  {
    hide Symbols, Pow2, Total, Lows;
    if log == 1 || log == 3 {
      EnoughSlots(ps, log);
      forall p | 0 <= p < Pow2(log)
        ensures HasCount(ps, log, p) <==> (1 <= p < |Flat(ps)| ==> Norm(ps[0]) > 0)
      {
        DegenerateSlot(ps, log, p);
      }
      if |Flat(ps)| > 1 {
        assert HasCount(ps, log, 1) <==> Norm(ps[0]) > 0;
      }
    } else {
      AlwaysBuildable(ps, log);
    }
  }

  /** A slot of a degenerate table: symbol 0 between slot 0 and the low-probability symbols; elsewhere a symbol with
      a count. */
  lemma DegenerateSlot(ps: seq<i16>, log: nat, p: nat)
    requires Normalized(ps, log) && (log == 1 || log == 3) && p < Pow2(log)
    ensures HasCount(ps, log, p) <==> (1 <= p < |Flat(ps)| ==> Norm(ps[0]) > 0)
  {
    hide Total, Pow2, Visits, Orbit, Slots, Lows, Flat, Spread;
    SlotsAllZero(ps, log);
    EnoughSlots(ps, log);
    LowsInRange(ps);
    FlatHasCounts(ps);
    var base, slots, flat := Base(Pow2(log), Lows(ps)), Slots(ps, log), Flat(ps);
    if p == 0 && flat != [] {
      SpreadLast(base, slots, flat);
    } else if flat == [] {
      SpreadNothing(base, slots);
    } else {
      SpreadMisses(base, slots, flat, p);
    }
  }

  lemma SpreadLast(base: seq<nat>, slots: seq<nat>, flat: seq<nat>)
    requires 0 < |flat| <= |slots| && base != []
    requires forall k :: 0 <= k < |slots| ==> slots[k] == 0
    ensures Spread(base, slots, flat)[0] == flat[|flat| - 1]
  {
  }

  lemma SpreadNothing(base: seq<nat>, slots: seq<nat>)
    requires forall k :: 0 <= k < |slots| ==> slots[k] < |base|
    ensures Spread(base, slots, []) == base
  {
  }

  lemma {:induction false} FlatHasCounts(ps: seq<i16>)
    ensures forall k :: 0 <= k < |Flat(ps)| ==> Flat(ps)[k] < |ps| && Norm(ps[Flat(ps)[k]]) > 0
  {
    if ps != [] {
      FlatHasCounts(ps[..|ps| - 1]);
    }
  }

  // ----- tiling

  ghost predicate Covers(entry: Entry, state: nat)
  {
    entry.baseline <= state < entry.baseline + Pow2(entry.bits)
  }

  /** Halves n until it falls below 2c. */
  function Halvings(n: nat, c: nat): (b: nat)
    requires 0 < c <= n
    decreases n
  {
    if n < 2 * c then 0 else 1 + Halvings(n / 2, c)
  }

  lemma {:induction false} HalvingsRange(n: nat, c: nat)
    requires 0 < c <= n
    ensures c <= n / Pow2(Halvings(n, c)) < 2 * c
    ensures Log2(n / Pow2(Halvings(n, c))) + Halvings(n, c) == Log2(n)
    decreases n
  {
    if n >= 2 * c {
      HalvingsRange(n / 2, c);
      QuotientOfHalf(n, Halvings(n / 2, c));
    }
  }

  lemma QuotientOfHalf(n: nat, b: nat)
    ensures n / 2 / Pow2(b) == n / Pow2(b + 1)
  {
    hide Pow2;
    var p := Pow2(b);
    var h := n / 2;
    var q, r := h / p, h % p;
    DivMod(h, p);
    MulAssociative(q, 2, p);
    assert Pow2(b + 1) == 2 * p by { Pow2Add(1, b); Pow2Values(); }
    assert n == q * (2 * p) + (2 * r + n % 2);
    DivModUnique(n, 2 * p, q, 2 * r + n % 2);
  }

  /** For a symbol of count c the counter values c .. 2c - 1 cover every state. */
  lemma CounterFor(c: nat, log: nat, state: nat) returns (x: nat)
    requires 0 < c <= Pow2(log) && state < Pow2(log)
    ensures c <= x < 2 * c
    ensures BaselineFor(x, log) <= state < BaselineFor(x, log) + Pow2(BitsFor(x, log))
  {
    var n := state + Pow2(log);
    var b := Halvings(n, c);
    HalvingsRange(n, c);
    x := n / Pow2(b);
    Log2Unique(n, log);
    assert BitsFor(x, log) == b;
    DivMod(n, Pow2(b));
  }

  lemma CounterBits(c: nat, log: nat, x: nat, y: nat)
    requires 0 < c <= Pow2(log) && c <= x < y < 2 * c
    ensures
      var bx, by' := BitsFor(x, log), BitsFor(y, log);
      bx == by' || (bx == by' + 1 && Pow2(bx) == 2 * Pow2(by'))
  {
    Log2Monotone(x, y);
    Log2Monotone(y, 2 * x);
  }

  /** ... and no state twice. */
  lemma CounterUnique(c: nat, log: nat, state: nat, x: nat, y: nat)
    requires 0 < c <= Pow2(log)
    requires c <= x < y < 2 * c
    requires BaselineFor(x, log) <= state < BaselineFor(x, log) + Pow2(BitsFor(x, log))
    ensures !(BaselineFor(y, log) <= state < BaselineFor(y, log) + Pow2(BitsFor(y, log)))
  {
    hide BitsFor, Pow2, Log2;
    CounterBits(c, log, x, y);
    var bx, b := BitsFor(x, log), BitsFor(y, log);
    if bx == b {
      EarlierBlock(x, y, Pow2(b));
    } else {
      MulAssociative(x, 2, Pow2(b));
      EarlierBlock(y, 2 * x, Pow2(b));
    }
  }

  /** The counter of a slot lies between the symbol's count and twice that, and tells the slots of a symbol apart. */
  lemma CounterBounds(ps: seq<i16>, log: nat, p: nat)
    requires Buildable(ps, log) && log != 1 && log != 3 && p < Pow2(log)
    ensures
      var c := Norm(ps[Symbols(ps, log)[p]]);
      c <= Counter(ps, Symbols(ps, log), p) < 2 * c && c <= Pow2(log)
  {
    hide Symbols, CountOf, Total;
    var symbols := Symbols(ps, log);
    NormBelowTotal(ps, symbols[p]);
    SlotCount(ps, log, symbols[p]);
    CountOfPrefix(symbols, p, |symbols|, symbols[p]);
    assert symbols[..|symbols|] == symbols;
  }

  lemma CounterDistinct(ps: seq<i16>, log: nat, p: nat, q: nat)
    requires Buildable(ps, log) && p < q < Pow2(log)
    requires Symbols(ps, log)[p] == Symbols(ps, log)[q]
    ensures Counter(ps, Symbols(ps, log), p) < Counter(ps, Symbols(ps, log), q)
  {
    hide Symbols, CountOf, Total;
    CountOfPrefix(Symbols(ps, log), p, q, Symbols(ps, log)[p]);
  }

  lemma SlotWithCounter(ps: seq<i16>, log: nat, symbol: nat, x: nat) returns (p: nat)
    requires Buildable(ps, log) && log != 1 && log != 3
    requires symbol < |ps| && Norm(ps[symbol]) <= x < 2 * Norm(ps[symbol])
    ensures p < Pow2(log) && Symbols(ps, log)[p] == symbol && Counter(ps, Symbols(ps, log), p) == x
  {
    hide Symbols, CountOf, Total;
    SlotCount(ps, log, symbol);
    p := NthOccurrence(Symbols(ps, log), symbol, x - Norm(ps[symbol]));
  }

  lemma OverlapMeansSame(ps: seq<i16>, log: nat, p: nat, q: nat, state: nat)
    requires Buildable(ps, log) && log != 1 && log != 3 && state < Pow2(log)
    requires p < q < Pow2(log) && Symbols(ps, log)[p] == Symbols(ps, log)[q]
    ensures !Covers(EntryAt(ps, log, p), state) || !Covers(EntryAt(ps, log, q), state)
  {
    hide Symbols, CountOf, BitsFor, BaselineFor, Pow2, Total, Counter;
    CounterBounds(ps, log, p);
    CounterBounds(ps, log, q);
    CounterDistinct(ps, log, p, q);
    var x, y := Counter(ps, Symbols(ps, log), p), Counter(ps, Symbols(ps, log), q);
    if Covers(EntryAt(ps, log, p), state) {
      CounterUnique(Norm(ps[Symbols(ps, log)[p]]), log, state, x, y);
    }
  }

  lemma EarlierBlock(x: nat, y: nat, width: nat)
    requires x < y
    ensures x * width + width <= y * width
  {
    MulMonotone(x + 1, y, width);
    MulDistributive(width, x, 1);
  }

  /** Next-state tiling: for every symbol with a count and every state of the
      table there is exactly one slot of that symbol whose interval holds the state. */
  lemma NextStatesTile(ps: seq<i16>, log: nat, symbol: nat, state: nat) returns (p: nat)
    requires Normalized(ps, log) && log != 1 && log != 3
    requires symbol < |ps| && Norm(ps[symbol]) > 0 && state < Pow2(log)
    ensures Buildable(ps, log)
    ensures p < Pow2(log) && Entries(ps, log)[p].symbol == symbol && Covers(Entries(ps, log)[p], state)
    ensures forall q :: 0 <= q < Pow2(log) && q != p && Entries(ps, log)[q].symbol == symbol
              ==> !Covers(Entries(ps, log)[q], state)
  {
    hide Symbols, CountOf, BitsFor, BaselineFor, Pow2, Total;
    AlwaysBuildable(ps, log);
    NormBelowTotal(ps, symbol);
    var x := CounterFor(Norm(ps[symbol]), log, state);
    p := SlotWithCounter(ps, log, symbol, x);
    assert Covers(EntryAt(ps, log, p), state);
    forall q | 0 <= q < Pow2(log) && q != p && Entries(ps, log)[q].symbol == symbol
      ensures !Covers(Entries(ps, log)[q], state)
    {
      OverlapMeansSame(ps, log, if q < p then q else p, if q < p then p else q, state);
    }
  }

  /** Whatever bits follow, the next state is inside the table. */
  lemma UpdateStaysInside(ps: seq<i16>, log: nat, p: nat, v: nat)
    requires Buildable(ps, log) && p < Pow2(log) && v < Pow2(EntryAt(ps, log, p).bits)
    ensures EntryAt(ps, log, p).baseline + v < Pow2(log)
    ensures EntryAt(ps, log, p).bits <= log
  {
    hide Symbols, CountOf, Total, EntryFor, Pow2;
    CounterFits(ps, log, p);
    assert HasCount(ps, log, p);
    EntryInside(Counter(ps, Symbols(ps, log), p), log, Symbols(ps, log)[p], v);
  }

  lemma EntryInside(x: nat, log: nat, symbol: u8, v: nat)
    requires log <= MAX_TABLE_LOG && 0 < x < 2 * Pow2(log) && v < Pow2(EntryFor(x, log, symbol).bits)
    ensures EntryFor(x, log, symbol).baseline + v < Pow2(log) && EntryFor(x, log, symbol).bits <= log
  {
    hide Pow2, BitsFor;
    IntervalEnd(x, log, BitsFor(x, log));
  }

  lemma IntervalEnd(x: nat, log: nat, b: nat)
    requires b <= log && x * Pow2(b) < 2 * Pow2(log)
    ensures x * Pow2(b) + Pow2(b) <= 2 * Pow2(log)
  {
    hide Pow2;
    Pow2Add(log - b, b);
    MulAssociative(2, Pow2(log - b), Pow2(b));
    NextMultiple(x, 2 * Pow2(log - b), Pow2(b));
  }
}
