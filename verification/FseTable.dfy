/** The FSE table object and its in-place construction (zstd-zero/src/fse.rs
    lines 26-187). Every loop is proved to build the table of `FseTableSpec`. */
module FseTable {
  import opened Numbers
  import opened Results
  import opened ZstdErrors
  import opened Counting
  import opened FseSpread
  import opened FseTableSpec
  import opened ZstdBits

  /** What a table decodes with: its entries and their base-two logarithm. No entries: no valid table. */
  datatype TableView = TableView(entries: seq<Entry>, log: nat)

  const NO_TABLE := TableView([], 0)

  ghost function RleView(symbol: u8): TableView
  {
    TableView([Entry(0, 0, symbol)], 0)
  }

  function FirstOne(ps: seq<i16>): (symbol: nat)
    ensures symbol <= |ps|
    ensures symbol < |ps| ==> ps[symbol] == 1
    ensures forall i :: 0 <= i < symbol ==> ps[i] != 1
  {
    if ps == [] then 0 else if ps[0] == 1 then 0 else 1 + FirstOne(ps[1..])
  }

  /** The table that a distribution describes, if it describes one. */
  ghost function Built(ps: seq<i16>, log: nat): Option<TableView>
  {
    if log > MAX_TABLE_LOG || |ps| == 0 || |ps| > MAX_SYMBOLS then None
    else if log == 0 then
      if FirstOne(ps) < |ps| then Some(RleView(FirstOne(ps))) else None
    else if Total(ps) == Pow2(log) && Buildable(ps, log) then
      Some(TableView(Entries(ps, log), log))
    else None
  }

  /** The checks that guard the construction are the only reason to reject,
      for every table size a description can have. */
  lemma BuiltIffNormalized(ps: seq<i16>, log: nat)
    requires 1 <= log <= MAX_TABLE_LOG && log != 1 && log != 3
    ensures Built(ps, log).Some? <==> 0 < |ps| <= MAX_SYMBOLS && Total(ps) == Pow2(log)
  {
    if 0 < |ps| <= MAX_SYMBOLS && Total(ps) == Pow2(log) {
      AlwaysBuildable(ps, log);
    }
  }

  function SymbolsOf(entries: seq<Entry>): (symbols: seq<nat>)
    ensures |symbols| == |entries|
    ensures forall p :: 0 <= p < |entries| ==> symbols[p] == entries[p].symbol
  {
    seq(|entries|, p requires 0 <= p < |entries| => entries[p].symbol)
  }

  class Table {
    const entries: array<Entry>
    var len: nat
    var log: nat

    ghost predicate Valid()
      reads this
    {
      entries.Length >= 512 && len <= 512
    }

    ghost function View(): TableView
      reads this, entries
      requires Valid()
    {
      TableView(entries[..len], log)
    }

    constructor (entries: array<Entry>)
      requires entries.Length >= 512
      ensures Valid() && this.entries == entries && View() == NO_TABLE
    {
      this.entries := entries;
      this.len := 0;
      this.log := 0;
    }

    method Reset()
      requires Valid()
      modifies this
      ensures Valid() && View() == NO_TABLE
    {
      len := 0;
      log := 0;
    }

    method BuildRle(symbol: u8)
      requires Valid()
      modifies this, entries
      ensures Valid() && View() == RleView(symbol)
    {
      entries[0] := Entry(0, 0, symbol);
      len := 1;
      log := 0;
    }

    /** Clears the slots and hands the top ones to the low-probability symbols. */
    method PlaceLows(probabilities: array<i16>, n: nat, size: nat) returns (high: nat)
      requires Valid() && n <= probabilities.Length && n <= MAX_SYMBOLS && size <= 512
      requires |Lows(probabilities[..n])| <= size
      modifies entries
      ensures high == size - |Lows(probabilities[..n])|
      ensures SymbolsOf(entries[..size]) == Base(size, Lows(probabilities[..n]))
    {
      for i := 0 to size
        invariant forall p :: 0 <= p < i ==> entries[p] == Entry(0, 0, 0)
      {
        entries[i] := Entry(0, 0, 0);
      }
      high := size;
      ghost var ps := probabilities[..n];
      for symbol := 0 to n
        invariant |Lows(ps[..symbol])| <= |Lows(ps)|
        invariant high == size - |Lows(ps[..symbol])|
        invariant SymbolsOf(entries[..size]) == Base(size, Lows(ps[..symbol]))
      {
        assert ps[..symbol + 1][..symbol] == ps[..symbol];
        LowsGrow(ps, symbol + 1);
        if probabilities[symbol] == -1 {
          high := high - 1;
          entries[high] := entries[high].(symbol := symbol);
        }
      }
      assert ps[..n] == ps;
    }

    /** k symbols are spread, after j strides, and the walk stands on `position`. */
    ghost predicate Spreading(ps: seq<i16>, tableLog: nat, j: nat, k: nat, position: nat)
      reads entries
    {
      && Normalized(ps, tableLog)
      && k <= |Flat(ps)| <= Pow2(tableLog) <= entries.Length
      && WalkAt(Pow2(tableLog), |Flat(ps)|, j, k, position)
      && SymbolsOf(entries[..Pow2(tableLog)]) == SpreadUpTo(ps, tableLog, k)
    }

    /** Writes one symbol and strides to the next free slot. The error return of
        the source is the result `false`; it is never taken. */
    method PlaceOne(ghost ps: seq<i16>, ghost tableLog: nat, size: nat, high: nat, symbol: u8, ghost placed: nat,
                    from: nat, ghost i: nat)
      returns (ok: bool, position: nat, ghost j: nat)
      requires size == Pow2(tableLog) && high == |Flat(ps)|
      requires symbol < |ps| && placed < ps[symbol]
      requires Spreading(ps, tableLog, i, Rank(ps, symbol, placed), from)
      modifies entries
      ensures ok && Spreading(ps, tableLog, j, Rank(ps, symbol, placed + 1), position)
    {
      hide Normalized, WalkAt, SpreadUpTo, Flat, Pow2;
      position, j := from, i;
      ghost var k := Rank(ps, symbol, placed);
      FlatAt(ps, symbol, placed);
      WalkPlaces(ps, tableLog, i, k, from);
      if from >= high {
        return false, position, j;
      }
      SpreadOneMore(ps, tableLog, k);
      entries[from] := entries[from].(symbol := symbol);
      assert SymbolsOf(entries[..size]) == old(SymbolsOf(entries[..size]))[from := symbol];
      position, j := NextFree(ps, tableLog, size, high, from, i, k);
      ok := true;
    }

    method PlaceRun(ghost ps: seq<i16>, ghost tableLog: nat, size: nat, high: nat, symbol: u8, times: nat,
                    from: nat, ghost i: nat)
      returns (ok: bool, position: nat, ghost j: nat)
      requires size == Pow2(tableLog) && high == |Flat(ps)|
      requires symbol < |ps| && ps[symbol] == times > 0
      requires Spreading(ps, tableLog, i, Rank(ps, symbol, 0), from)
      modifies entries
      ensures ok && Spreading(ps, tableLog, j, Rank(ps, symbol + 1, 0), position)
    {
      position, j := from, i;
      FlatGrows(ps, symbol);
      hide *;
      for placed := 0 to times
        invariant Spreading(ps, tableLog, j, Rank(ps, symbol, placed), position)
      {
        ok, position, j := PlaceOne(ps, tableLog, size, high, symbol, placed, position, j);
        if !ok {
          return;
        }
      }
      ok := true;
    }

    /** Spreads the symbols of positive probability with the fixed stride. The two
        error returns of the source are the results `false`; they are never taken. */
    method SpreadSymbols(probabilities: array<i16>, n: nat, size: nat, high: nat, ghost tableLog: nat)
      returns (ok: bool)
      requires Valid() && n <= probabilities.Length && n <= MAX_SYMBOLS && Normalized(probabilities[..n], tableLog)
      requires size == Pow2(tableLog) && size <= 512 && high == |Flat(probabilities[..n])|
      requires |Lows(probabilities[..n])| <= size
      requires SymbolsOf(entries[..size]) == Base(size, Lows(probabilities[..n]))
      modifies entries
      ensures ok
      ensures SymbolsOf(entries[..size]) == Symbols(probabilities[..n], tableLog)
    {
      ghost var ps := probabilities[..n];
      SpreadStarts(ps, tableLog);
      var position: nat := 0;
      ghost var j: nat := 0;
      assert n <= 256 && Spreading(ps, tableLog, 0, Rank(ps, 0, 0), 0);
      {
        hide *;
        for symbol := 0 to n
          invariant Spreading(ps, tableLog, j, Rank(ps, symbol, 0), position)
        {
          if probabilities[symbol] <= 0 {
            FlatSkips(ps, symbol);
          } else {
            ok, position, j := PlaceRun(ps, tableLog, size, high, symbol, probabilities[symbol], position, j);
            if !ok {
              return;
            }
          }
        }
        RankOfEnd(ps);
        assert Spreading(ps, tableLog, j, |Flat(ps)|, position);
      }
      SpreadEnds(ps, tableLog, j, position);
      ok := position == 0;
    }

    method WriteTransition(p: nat, state: nat, size: nat, tableLog: nat)
      requires p < size <= entries.Length && size == Pow2(tableLog) && tableLog <= MAX_TABLE_LOG && 0 < state < 2 * size
      modifies entries
      ensures entries[p] == EntryFor(state, tableLog, old(entries[p].symbol))
      ensures forall q :: 0 <= q < entries.Length && q != p ==> entries[q] == old(entries[q])
    {
      hide Pow2, Log2;
      TransitionFits(state, tableLog, entries[p].symbol);
      var bits := tableLog - Log2(state);
      entries[p] := Entry(state * Pow2(bits) - size, bits, entries[p].symbol);
    }

    /** Turns counts into next-state counters and gives every slot its bits and
        baseline. The error return of the source is the result `false`. */
    method AssignStates(counters: array<i16>, n: nat, size: nat, tableLog: nat, ghost ps: seq<i16>) returns (ok: bool)
      requires Valid() && n <= counters.Length && counters[..n] == ps && Normalized(ps, tableLog)
      requires size == Pow2(tableLog) && size <= 512 && tableLog <= MAX_TABLE_LOG
      requires SymbolsOf(entries[..size]) == Symbols(ps, tableLog)
      modifies entries, counters
      ensures ok <==> Buildable(ps, tableLog)
      ensures ok ==> entries[..size] == Entries(ps, tableLog)
    {
      hide Symbols, Pow2, Total, Norm, CountOf, CountersAt, Log2, BitsFor, BaselineFor, EntryAt, EntryFor, HasCount,
          Normalized;
      CountsToCounters(counters, n, ps, tableLog);
      ghost var symbols := Symbols(ps, tableLog);
      forall q | 0 <= q < size ensures entries[q].symbol == symbols[q] {
        assert SymbolsOf(entries[..size])[q] == entries[..size][q].symbol;
      }
      for p := 0 to size
        invariant CountersAt(counters[..n], ps, symbols, p)
        invariant forall q :: p <= q < size ==> entries[q].symbol == symbols[q]
        invariant forall q :: 0 <= q < p ==> HasCount(ps, tableLog, q) && entries[q] == EntryAt(ps, tableLog, q)
      {
        var symbol := entries[p].symbol;
        CounterValue(counters[..n], ps, tableLog, p);
        var state := counters[symbol];
        if state == 0 {
          return false;
        }
        CountersNext(counters[..n], ps, symbols, p);
        counters[symbol] := state + 1;
        WriteTransition(p, state, size, tableLog);
      }
      ok := true;
    }

    /** Builds the table of a distribution, using its storage as counters. */
    method BuildInPlace(probabilities: array<i16>, n: nat, tableLog: nat) returns (r: Result<(), DecodeError>)
      requires Valid() && n <= probabilities.Length
      modifies this, entries, probabilities
      ensures Valid()
      ensures r.Ok? <==> Built(old(probabilities[..n]), tableLog).Some?
      ensures r.Ok? ==> View() == Built(old(probabilities[..n]), tableLog).value
      ensures r.Err? ==> r.error == InvalidEntropyTable
      ensures r.Err? && tableLog != 1 && tableLog != 3 ==> View() == old(View())
    {
      if tableLog > MAX_TABLE_LOG || n == 0 || n > MAX_SYMBOLS {
        return Err(InvalidEntropyTable);
      }
      if tableLog == 0 {
        var symbol := FirstOne(probabilities[..n]);
        if symbol == n {
          return Err(InvalidEntropyTable);
        }
        BuildRle(symbol);
        return Ok(());
      }
      r := BuildTable(probabilities, n, tableLog);
    }

    method BuildTable(probabilities: array<i16>, n: nat, tableLog: nat) returns (r: Result<(), DecodeError>)
      requires Valid() && 0 < n <= probabilities.Length && n <= MAX_SYMBOLS && 1 <= tableLog <= MAX_TABLE_LOG
      modifies this, entries, probabilities
      ensures Valid()
      ensures r.Ok? <==> Built(old(probabilities[..n]), tableLog).Some?
      ensures r.Ok? ==> View() == Built(old(probabilities[..n]), tableLog).value
      ensures r.Err? ==> r.error == InvalidEntropyTable
      ensures r.Err? && tableLog != 1 && tableLog != 3 ==> View() == old(View())
    {
      hide Built, Symbols, Pow2, Total, Flat, Lows, Buildable, Entries;
      ghost var ps := probabilities[..n];
      LogFits(tableLog);
      BuiltIffBuildable(ps, tableLog);
      var size := Pow2(tableLog);
      var total := SumCounts(probabilities, n);
      if total != size {
        return Err(InvalidEntropyTable);
      }
      EnoughSlots(ps, tableLog);
      var high := PlaceLows(probabilities, n, size);
      var spread := SpreadSymbols(probabilities, n, size, high, tableLog);
      if !spread {
        return Err(InvalidEntropyTable);
      }
      var numbered := AssignStates(probabilities, n, size, tableLog, ps);
      if !numbered {
        return Err(InvalidEntropyTable);
      }
      len := size;
      log := tableLog;
      r := Ok(());
    }

    /** Builds from a distribution that must survive, in caller-owned scratch. */
    method Build(probabilities: seq<i16>, tableLog: nat, scratch: array<i16>) returns (r: Result<(), DecodeError>)
      requires Valid()
      modifies this, entries, scratch
      ensures Valid()
      ensures r.Ok? <==> |probabilities| <= scratch.Length && Built(probabilities, tableLog).Some?
      ensures r.Ok? ==> View() == Built(probabilities, tableLog).value
      ensures r.Err? ==> r.error == InvalidEntropyTable
      ensures r.Err? && tableLog != 1 && tableLog != 3 ==> View() == old(View())
    {
      var n := |probabilities|;
      if n > scratch.Length {
        return Err(InvalidEntropyTable);
      }
      for i := 0 to n
        modifies scratch
        invariant scratch[..i] == probabilities[..i]
      {
        scratch[i] := probabilities[i];
      }
      assert scratch[..n] == probabilities;
      r := BuildInPlace(scratch, n, tableLog);
    }

    function EntryOf(state: nat): (r: Result<Entry, DecodeError>)
      requires Valid()
      reads this, entries
      ensures r == Lookup(View(), state)
    {
      if state >= len then Err(InvalidEntropyTable) else Ok(entries[state])
    }

    function Symbol(state: nat): (r: Result<u8, DecodeError>)
      requires Valid()
      reads this, entries
      ensures r == match Lookup(View(), state) case Ok(entry) => Ok(entry.symbol) case Err(e) => Err(e)
    {
      var entry :- EntryOf(state);
      Ok(entry.symbol)
    }

    /** Reads the next state. */
    method Update(state: nat, bits: BackwardBits) returns (r: Result<nat, DecodeError>)
      requires Valid() && bits.Valid()
      modifies bits
      ensures bits.Valid()
      ensures r == NextState(View(), state, old(bits.Stream())).0
      ensures bits.Stream() == NextState(View(), state, old(bits.Stream())).1
    {
      var entry :- EntryOf(state);
      var value :- bits.Read(entry.bits);
      r := Ok(entry.baseline + value);
    }
  }

  method SumCounts(probabilities: array<i16>, n: nat) returns (total: nat)
    requires n <= probabilities.Length
    ensures total == Total(probabilities[..n])
  {
    total := 0;
    ghost var ps := probabilities[..n];
    for i := 0 to n
      invariant total == Total(ps[..i])
    {
      assert ps[..i + 1][..i] == ps[..i];
      total := total + Norm(probabilities[i]);
    }
    assert ps[..n] == ps;
  }

  lemma BuiltIffBuildable(ps: seq<i16>, log: nat)
    requires 1 <= log <= MAX_TABLE_LOG && 0 < |ps| <= MAX_SYMBOLS
    ensures Built(ps, log)
        == if Total(ps) == Pow2(log) && Buildable(ps, log) then Some(TableView(Entries(ps, log), log)) else None
    ensures Total(ps) == Pow2(log) ==> Normalized(ps, log)
    ensures Total(ps) == Pow2(log) && log != 1 && log != 3 ==> Buildable(ps, log)
  {
    if Total(ps) == Pow2(log) && log != 1 && log != 3 {
      AlwaysBuildable(ps, log);
    }
  }

  // ----- decoding with a table

  function Lookup(table: TableView, state: nat): (r: Result<Entry, DecodeError>)
    ensures r.Ok? <==> state < |table.entries|
  {
    if state >= |table.entries| then Err(InvalidEntropyTable) else Ok(table.entries[state])
  }

  /** The next state and the bits that remain. */
  function NextState(table: TableView, state: nat, s: seq<bit>): (r: (Result<nat, DecodeError>, seq<bit>))
  {
    match Lookup(table, state)
    case Err(e) => (Err(e), s)
    case Ok(entry) =>
      match TopBits(s, entry.bits)
      case Err(e) => (Err(e), s)
      case Ok(v) => (Ok(entry.baseline + v), s[entry.bits..])
  }

  ghost predicate CountersAt(counters: seq<i16>, ps: seq<i16>, symbols: seq<nat>, p: nat)
    requires p <= |symbols|
  {
    && |counters| == |ps|
    && forall s :: 0 <= s < |ps| ==> counters[s] == Norm(ps[s]) + CountOf(symbols[..p], s)
  }

  lemma TransitionFits(state: nat, log: nat, symbol: u8)
    requires log <= MAX_TABLE_LOG && 0 < state < 2 * Pow2(log)
    ensures Log2(state) <= log && Pow2(log) <= state * Pow2(log - Log2(state)) < Pow2(log) + 512
    ensures EntryFor(state, log, symbol)
        == Entry(state * Pow2(log - Log2(state)) - Pow2(log), log - Log2(state), symbol)
  {
    LogFits(log);
    assert BitsFor(state, log) == log - Log2(state);
  }

  method CountsToCounters(counters: array<i16>, n: nat, ghost ps: seq<i16>, ghost log: nat)
    requires n <= counters.Length && counters[..n] == ps && Normalized(ps, log)
    modifies counters
    ensures CountersAt(counters[..n], ps, Symbols(ps, log), 0)
  {
    hide Symbols, Normalized, Norm;
    for symbol := 0 to n
      invariant forall s :: 0 <= s < symbol ==> counters[s] == Norm(ps[s])
      invariant forall s :: symbol <= s < n ==> counters[s] == ps[s]
    {
      NormFits(counters[symbol]);
      counters[symbol] := Norm(counters[symbol]);
    }
  }

  lemma NormFits(probability: i16)
    ensures Norm(probability) < 0x8000
  {
  }

  lemma CounterValue(counters: seq<i16>, ps: seq<i16>, log: nat, p: nat)
    requires Normalized(ps, log) && p < Pow2(log) && CountersAt(counters, ps, Symbols(ps, log), p)
    requires forall q :: 0 <= q < p ==> HasCount(ps, log, q)
    ensures Symbols(ps, log)[p] < |counters| == |ps|
    ensures 0 <= counters[Symbols(ps, log)[p]] < 2 * Pow2(log) <= 1024
    ensures counters[Symbols(ps, log)[p]] == 0 ==> !HasCount(ps, log, p)
    ensures counters[Symbols(ps, log)[p]] != 0 ==> HasCount(ps, log, p)
    ensures counters[Symbols(ps, log)[p]] != 0 ==>
              EntryAt(ps, log, p) == EntryFor(counters[Symbols(ps, log)[p]], log, Symbols(ps, log)[p])
  {
    hide Symbols, Pow2, Total, CountOf, BitsFor, BaselineFor, EntryFor;
    var symbols := Symbols(ps, log);
    CounterFits(ps, log, p);
    if CountOf(symbols[..p], symbols[p]) > 0 {
      var q := NthOccurrence(symbols[..p], symbols[p], 0);
      assert HasCount(ps, log, q);
    }
  }

  lemma CountersNext(counters: seq<i16>, ps: seq<i16>, symbols: seq<nat>, p: nat)
    requires p < |symbols| && symbols[p] < |ps| && CountersAt(counters, ps, symbols, p)
    requires counters[symbols[p]] < 0x7fff
    ensures CountersAt(counters[symbols[p] := counters[symbols[p]] + 1], ps, symbols, p + 1)
  {
    assert symbols[..p + 1][..p] == symbols[..p];
  }

  /** Strides to the next slot below `high`. */
  method NextFree(ghost ps: seq<i16>, ghost log: nat, size: nat, high: nat, from: nat, ghost i: nat, ghost k: nat)
    returns (position: nat, ghost j: nat)
    requires Normalized(ps, log) && size == Pow2(log)
    requires k < high == |Flat(ps)| <= size && WalkAt(size, high, i, k, from)
    ensures WalkAt(size, high, j, k + 1, position)
  {
    WalkPlaces(ps, log, i, k, from);
    assert Pow2(log) > 0;
    hide *;
    position := Stride(size, from);
    j := i + 1;
    while position >= high
      invariant position == Orbit(size, j) && 0 < j <= size
      invariant |Visits(size, high, j)| == k + 1
      decreases size - j
    {
      WalkSkips(ps, log, j);
      position := Stride(size, position);
      j := j + 1;
    }
  }

  /** The table's symbols once the first k symbols have been spread. */
  ghost function SpreadUpTo(ps: seq<i16>, log: nat, k: nat): (symbols: seq<nat>)
    requires Normalized(ps, log) && k <= |Flat(ps)|
  {
    EnoughSlots(ps, log);
    Spread(Base(Pow2(log), Lows(ps)), Slots(ps, log), Flat(ps)[..k])
  }

  lemma SpreadStarts(ps: seq<i16>, log: nat)
    requires Normalized(ps, log)
    ensures WalkAt(Pow2(log), |Flat(ps)|, 0, 0, 0)
    ensures |Flat(ps[..0])| == 0
    ensures |Lows(ps)| <= Pow2(log) && SpreadUpTo(ps, log, 0) == Base(Pow2(log), Lows(ps))
    ensures SpreadUpTo(ps, log, |Flat(ps)|) == Symbols(ps, log)
  {
    EnoughSlots(ps, log);
    assert Flat(ps)[..0] == [] && Flat(ps)[..|Flat(ps)|] == Flat(ps);
  }

  lemma SpreadOneMore(ps: seq<i16>, log: nat, k: nat)
    requires Normalized(ps, log) && k < |Flat(ps)|
    ensures |SpreadUpTo(ps, log, k)| == Pow2(log) > Slots(ps, log)[k]
    ensures SpreadUpTo(ps, log, k + 1) == SpreadUpTo(ps, log, k)[Slots(ps, log)[k] := Flat(ps)[k]]
  {
    hide Normalized, Visits, Flat, Lows, Pow2, Slots, Base;
    EnoughSlots(ps, log);
    assert Flat(ps)[..k + 1][..k] == Flat(ps)[..k];
  }

  /** After j strides k symbols are placed and the walk stands on the next free slot. */
  ghost predicate WalkAt(size: nat, high: nat, j: nat, k: nat, position: nat)
    requires size > 0
  {
    && j <= size
    && |Visits(size, high, j)| == k
    && position == Orbit(size, j)
    && (high > 0 ==> position < high)
    && (k == 0 ==> j == 0)
  }

  lemma WalkPlaces(ps: seq<i16>, log: nat, j: nat, k: nat, position: nat)
    requires Normalized(ps, log) && k < |Flat(ps)| <= Pow2(log)
    requires WalkAt(Pow2(log), |Flat(ps)|, j, k, position)
    ensures j < Pow2(log) && Slots(ps, log)[k] == position < |Flat(ps)|
    ensures |Visits(Pow2(log), |Flat(ps)|, j + 1)| == k + 1
    ensures Orbit(Pow2(log), j + 1) == Stride(Pow2(log), position)
  {
    hide Pow2, Stride, Total, Flat;
    WalkBudget(log, |Flat(ps)|, j);
    VisitsGrow(Pow2(log), |Flat(ps)|, j + 1, Pow2(log));
  }

  lemma WalkSkips(ps: seq<i16>, log: nat, j: nat)
    requires Normalized(ps, log) && 0 < |Flat(ps)| <= Pow2(log)
    requires j <= Pow2(log) && Orbit(Pow2(log), j) >= |Flat(ps)|
    ensures j < Pow2(log)
    ensures |Visits(Pow2(log), |Flat(ps)|, j + 1)| == |Visits(Pow2(log), |Flat(ps)|, j)|
    ensures Orbit(Pow2(log), j + 1) == Stride(Pow2(log), Orbit(Pow2(log), j))
  {
    hide Pow2, Stride, Total, Flat;
    OrbitReturns(log);
  }

  lemma SpreadEnds(ps: seq<i16>, log: nat, j: nat, position: nat)
    requires Normalized(ps, log) && |Flat(ps)| <= Pow2(log)
    requires WalkAt(Pow2(log), |Flat(ps)|, j, |Flat(ps)|, position)
    ensures position == 0
    ensures SpreadUpTo(ps, log, |Flat(ps)|) == Symbols(ps, log)
  {
    SpreadStarts(ps, log);
    if |Flat(ps)| > 0 {
      WalkEnds(log, |Flat(ps)|, j);
    }
  }

  /** Where the symbol's next occurrence stands in `Flat(ps)` once `placed` of them are placed. */
  ghost function Rank(ps: seq<i16>, symbol: nat, placed: nat): nat
    requires symbol <= |ps|
  {
    |Flat(ps[..symbol])| + placed
  }

  lemma RankOfEnd(ps: seq<i16>)
    ensures Rank(ps, |ps|, 0) == |Flat(ps)|
  {
    assert ps[..|ps|] == ps;
  }

  lemma FlatGrows(ps: seq<i16>, symbol: nat)
    requires symbol < |ps| && ps[symbol] > 0
    ensures Rank(ps, symbol, ps[symbol]) == Rank(ps, symbol + 1, 0)
  {
    FlatPrefix(ps, symbol);
  }

  lemma FlatSkips(ps: seq<i16>, symbol: nat)
    requires symbol < |ps| && ps[symbol] <= 0
    ensures Rank(ps, symbol, 0) == Rank(ps, symbol + 1, 0)
  {
    FlatPrefix(ps, symbol);
  }

  lemma FlatAt(ps: seq<i16>, symbol: nat, placed: nat)
    requires symbol < |ps| && placed < ps[symbol]
    ensures Rank(ps, symbol, placed) < |Flat(ps)|
    ensures Flat(ps)[Rank(ps, symbol, placed)] == symbol
    ensures Rank(ps, symbol, placed + 1) == Rank(ps, symbol, placed) + 1
  {
    FlatPrefix(ps, symbol);
  }

  lemma {:induction false} FlatPrefix(ps: seq<i16>, symbol: nat)
    requires symbol < |ps|
    ensures |Flat(ps[..symbol + 1])| == |Flat(ps[..symbol])| + if ps[symbol] > 0 then ps[symbol] else 0
    ensures |Flat(ps[..symbol + 1])| <= |Flat(ps)|
    ensures forall k :: |Flat(ps[..symbol])| <= k < |Flat(ps[..symbol + 1])| ==> Flat(ps)[k] == symbol
  {
    assert ps[..symbol + 1][..symbol] == ps[..symbol];
    if symbol + 1 < |ps| {
      assert ps[..|ps| - 1][..symbol + 1] == ps[..symbol + 1];
      assert ps[..|ps| - 1][..symbol] == ps[..symbol];
      FlatPrefix(ps[..|ps| - 1], symbol);
    } else {
      assert ps[..symbol + 1] == ps;
    }
  }

  lemma {:induction false} LowsGrow(ps: seq<i16>, n: nat)
    requires n <= |ps|
    ensures |Lows(ps[..n])| <= |Lows(ps)|
  {
    if n < |ps| {
      assert ps[..|ps| - 1][..n] == ps[..n];
      LowsGrow(ps[..|ps| - 1], n);
    } else {
      assert ps[..n] == ps;
    }
  }

  /** With a built table every update lands inside the table: looking up the next state cannot fail. */
  lemma UpdateInside(ps: seq<i16>, log: nat, state: nat, s: seq<bit>)
    requires Buildable(ps, log) && state < Pow2(log)
    ensures
      var table := TableView(Entries(ps, log), log);
      var next := NextState(table, state, s);
      Lookup(table, state).Ok? && (next.0.Ok? ==> next.0.value < Pow2(log))
  {
    hide Symbols, Pow2, Total, Counter, BaselineFor, BitsFor;
    var entry := EntryAt(ps, log, state);
    if TopBits(s, entry.bits).Ok? {
      UpdateStaysInside(ps, log, state, TopBits(s, entry.bits).value);
    }
  }

  lemma BitsAtMostLog(ps: seq<i16>, log: nat, state: nat)
    requires Buildable(ps, log) && state < Pow2(log)
    ensures EntryAt(ps, log, state).bits <= log <= 9
  {
    hide Symbols, Total, Counter;
    UpdateStaysInside(ps, log, state, 0);
  }
}
