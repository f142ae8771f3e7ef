/** The Huffman tree description (zstd-zero/src/huffman.rs lines 45-82 and
    232-265, RFC 8878 section 4.2.1): weights as nibbles, or as an FSE stream
    decoded by two alternating states. */
module HuffmanDescription {
  import opened Numbers
  import opened Results
  import opened ZstdErrors
  import opened ZstdBits
  import opened FseTableSpec
  import opened FseDescription
  import opened HuffmanCode
  import opened HuffmanTable
  import FseTable

  const MAX_WEIGHT_SYMBOL: nat := 12
  const MAX_WEIGHT_LOG: nat := 6
  const MAX_WEIGHTS: nat := 255

  // ----- FSE-compressed weights

  /** Two states take turns; when the bits no longer reach for an update, the other state has the last word. */
  ghost function WeightsFrom(table: FseTable.TableView, first: nat, second: nat, s: seq<bit>, weights: seq<u8>)
    : (r: Result<seq<u8>, DecodeError>)
    decreases MAX_WEIGHTS - |weights|
  {
    if |weights| >= MAX_WEIGHTS then Err(InvalidEntropyTable)
    else
      var entry :- FseTable.Lookup(table, first);
      var more := weights + [entry.symbol];
      if |s| < entry.bits then
        if |more| >= MAX_WEIGHTS then Err(InvalidEntropyTable)
        else
          var last :- FseTable.Lookup(table, second);
          Ok(more + [last.symbol])
      else
        var (next, rest) := FseTable.NextState(table, first, s);
        var state :- next;
        WeightsFrom(table, second, state, rest, more)
  }

  ghost function CompressedWeights(input: seq<u8>): (r: Result<seq<u8>, DecodeError>)
  {
    var d :- DescriptionOf(input, MAX_WEIGHT_SYMBOL, MAX_WEIGHT_LOG);
    DescriptionBuilds(input, MAX_WEIGHT_SYMBOL, MAX_WEIGHT_LOG);
    var table := FseTable.Built(d.probabilities, d.log).value;
    var size := (d.bits + 7) / 8;
    if size >= |input| then Err(InvalidEntropyTable)
    else
      match Payload(input[size..])
      case None => Err(InvalidBitstream)
      case Some(s) =>
        var first :- TopBits(s, d.log);
        var second :- TopBits(s[d.log..], d.log);
        WeightsFrom(table, first, second, s[d.log..][d.log..], [])
  }

  /** With a table built from a description no state is ever out of range and no read is
      ever short: the only way left to fail is too many weights. */
  lemma {:induction false} WeightStatesStayInside(table: FseTable.TableView, ps: seq<i16>, first: nat, second: nat,
                                                  s: seq<bit>, weights: seq<u8>)
    requires Buildable(ps, table.log) && table.entries == Entries(ps, table.log)
    requires first < Pow2(table.log) && second < Pow2(table.log)
    ensures
      match WeightsFrom(table, first, second, s, weights)
      case Ok(all) => |weights| + 2 <= |all| <= MAX_WEIGHTS && weights <= all
      case Err(e) => e == InvalidEntropyTable
    decreases MAX_WEIGHTS - |weights|
  {
    hide Entries, Pow2, Buildable;
    if |weights| < MAX_WEIGHTS {
      var bits := StepIsTotal(table, ps, first, s);
      if |s| >= bits {
        var next := FseTable.NextState(table, first, s);
        WeightStatesStayInside(table, ps, second, next.0.value, next.1,
                               weights + [FseTable.Lookup(table, first).value.symbol]);
      }
      var _ := StepIsTotal(table, ps, second, s);
    }
  }

  lemma StepIsTotal(table: FseTable.TableView, ps: seq<i16>, state: nat, s: seq<bit>) returns (bits: nat)
    requires Buildable(ps, table.log) && table.entries == Entries(ps, table.log) && state < Pow2(table.log)
    ensures FseTable.Lookup(table, state).Ok? && bits == FseTable.Lookup(table, state).value.bits
    ensures |s| >= bits
        ==> FseTable.NextState(table, state, s).0.Ok? && FseTable.NextState(table, state, s).0.value < Pow2(table.log)
  {
    hide Symbols, EntryAt, Pow2, Msb;
    assert table == FseTable.TableView(Entries(ps, table.log), table.log);
    FseTable.UpdateInside(ps, table.log, state, s);
    FseTable.BitsAtMostLog(ps, table.log, state);
    bits := FseTable.Lookup(table, state).value.bits;
  }

  /** The alternating loop, filling `output` from its start. */
  method TakeWeights(table: FseTable.Table, bits: BackwardBits, one: nat, other: nat, output: array<u8>)
    returns (r: Result<nat, DecodeError>)
    requires table.Valid() && bits.Valid() && output.Length >= MAX_WEIGHTS
    modifies bits, output
    ensures
      match WeightsFrom(table.View(), one, other, old(bits.Stream()), [])
      case Err(e) => r == Err(e)
      case Ok(weights) => r == Ok(|weights|) && |weights| <= output.Length && output[..|weights|] == weights
  {
    hide FseTable.Lookup, FseTable.NextState, Downward;
    var first, second := one, other;
    var count: nat := 0;
    ghost var view := table.View();
    assert output[..0] == [];
    while true
      invariant bits.Valid() && count <= MAX_WEIGHTS && table.Valid() && table.View() == view
      invariant WeightsFrom(view, first, second, bits.Stream(), output[..count])
             == WeightsFrom(view, one, other, old(bits.Stream()), [])
      decreases MAX_WEIGHTS - count
    {
      if count >= MAX_WEIGHTS {
        return Err(InvalidEntropyTable);
      }
      var entry :- table.EntryOf(first);
      ghost var before := output[..count];
      output[count] := entry.symbol;
      count := count + 1;
      assert output[..count] == before + [entry.symbol];
      if bits.remaining < entry.bits {
        if count >= MAX_WEIGHTS {
          return Err(InvalidEntropyTable);
        }
        var last :- table.Symbol(second);
        ghost var almost := output[..count];
        output[count] := last;
        assert output[..count + 1] == almost + [last];
        return Ok(count + 1);
      }
      var state :- table.Update(first, bits);
      first, second := second, state;
    }
  }

  method DecompressWeights(input: seq<u8>, output: array<u8>, table: FseTable.Table, scratch: array<i16>)
    returns (r: Result<nat, DecodeError>)
    requires table.Valid() && output.Length >= MAX_WEIGHTS && scratch.Length >= MAX_SYMBOLS
    modifies table, table.entries, scratch, output
    ensures table.Valid()
    ensures
      match CompressedWeights(input)
      case Err(e) => r == Err(e)
      case Ok(weights) => r == Ok(|weights|) && |weights| <= output.Length && output[..|weights|] == weights
  {
    hide DescriptionOf, WeightsFrom, FseTable.Built, Msb, Downward;
    table.Reset();
    var size :- ReadDescription(table, input, MAX_WEIGHT_SYMBOL, MAX_WEIGHT_LOG, scratch);
    ghost var d := DescriptionOf(input, MAX_WEIGHT_SYMBOL, MAX_WEIGHT_LOG).value;
    BuiltView(input, MAX_WEIGHT_SYMBOL, MAX_WEIGHT_LOG);
    if size >= |input| {
      return Err(InvalidEntropyTable);
    }
    var bits :- BackwardBits.Open(input[size..]);
    var first :- bits.Read(table.log);
    var second :- bits.Read(table.log);
    r := TakeWeights(table, bits, first, second, output);
  }

  lemma BuiltView(input: seq<u8>, maxSymbol: nat, maxLog: nat)
    requires DescriptionOf(input, maxSymbol, maxLog).Ok?
    ensures
      var d := DescriptionOf(input, maxSymbol, maxLog).value;
      FseTable.Built(d.probabilities, d.log).Some? && FseTable.Built(d.probabilities, d.log).value.log == d.log
  {
    hide DescriptionOf, FseTable.Built;
    DescriptionBuilds(input, maxSymbol, maxLog);
  }

  // ----- the description

  function Nibble(packed: u8, index: nat): (weight: u8)
    ensures weight < 16
  {
    if index % 2 == 0 then packed / 16 else packed % 16
  }

  function DirectWeights(packed: seq<u8>, count: nat): (weights: seq<u8>)
    requires count <= 2 * |packed|
    ensures |weights| == count
  {
    seq(count, i requires 0 <= i < count => Nibble(packed[i / 2], i))
  }

  /** The weight list at the start of `input`, and the number of bytes that spell it. */
  ghost function TreeOf(input: seq<u8>): (r: Result<(seq<u8>, nat), DecodeError>)
    ensures r.Ok? ==> r.value.1 <= |input|
  {
    if |input| == 0 then Err(InvalidEntropyTable)
    else
      var header := input[0];
      if header < 128 then
        if header == 0 || |input| < 1 + header then Err(InvalidEntropyTable)
        else
          var weights :- CompressedWeights(input[1..1 + header]);
          Ok((weights, 1 + header))
      else
        var count := header - 127;
        var bytes := (count + 1) / 2;
        if |input| < 1 + bytes then Err(InvalidEntropyTable)
        else Ok((DirectWeights(input[1..1 + bytes], count), 1 + bytes))
  }

  /** Builds the code that `input` describes; returns how many bytes described it. */
  method ReadTree(table: HuffmanTable.Table, input: seq<u8>, scratch: array<i16>) returns (r: Result<nat, DecodeError>)
    requires table.Valid() && scratch.Length >= MAX_SYMBOLS
    modifies table, table.entries, table.scratch, table.scratch.entries, scratch
    ensures table.Valid()
    ensures
      match TreeOf(input)
      case Err(e) => r == Err(e)
      case Ok((weights, size)) =>
        if Acceptable(weights) then r == Ok(size) && table.View() == BuiltCode(weights)
        else r == Err(InvalidEntropyTable)
  {
    hide CompressedWeights, Acceptable, BuiltCode, Tabulates, Nibble;
    if |input| == 0 {
      return Err(InvalidEntropyTable);
    }
    var header: nat := input[0];
    var weights := new u8[256](_ => 0);
    var count: nat, consumed: nat;
    if header < 128 {
      if header == 0 || |input| < 1 + header {
        return Err(InvalidEntropyTable);
      }
      count :- DecompressWeights(input[1..1 + header], weights, table.scratch, scratch);
      consumed := 1 + header;
    } else {
      count := header - 127;
      var bytes := (count + 1) / 2;
      if |input| < 1 + bytes {
        return Err(InvalidEntropyTable);
      }
      for index := 0 to count
        modifies weights
        invariant forall i :: 0 <= i < index ==> weights[i] == Nibble(input[1..1 + bytes][i / 2], i)
      {
        weights[index] := Nibble(input[1 + index / 2], index);
      }
      assert weights[..count] == DirectWeights(input[1..1 + bytes], count);
      consumed := 1 + bytes;
    }
    var _ :- table.Build(weights[..count]);
    r := Ok(consumed);
  }
}
