/** The Huffman table object (zstd-zero/src/huffman.rs lines 21-230): building
    it in place, and decoding with it. */
module HuffmanTable {
  import opened Numbers
  import opened Results
  import opened ZstdErrors
  import opened Counting
  import opened ZstdBits
  import opened HuffmanCode
  import FseTable

  datatype Entry = Entry(symbol: u8, bits: u8)

  /** What a table decodes with. */
  datatype CodeView = NoCode | Code(lengths: seq<nat>, tableBits: nat)

  ghost function BuiltCode(weights: seq<u8>): CodeView
    requires Acceptable(weights)
  {
    Code(Lengths(weights), TableBits(WeightSum(weights)))
  }

  /** Slot by slot, the entries of a complete code. */
  ghost predicate Tabulates(entries: seq<Entry>, lengths: seq<nat>, tableBits: nat)
  {
    && Complete(lengths, tableBits)
    && |entries| >= Pow2(tableBits)
    && forall slot :: 0 <= slot < Pow2(tableBits) ==> EntryIs(entries[slot], lengths, tableBits, slot)
  }

  ghost predicate EntryIs(entry: Entry, lengths: seq<nat>, tableBits: nat, slot: nat)
    requires Complete(lengths, tableBits) && slot < Pow2(tableBits)
  {
    var owner := Owner(lengths, tableBits, slot);
    entry.symbol == owner && entry.bits == lengths[owner]
  }

  method CountRanks(codeBits: array<nat>, n: nat) returns (ranks: array<nat>)
    requires n <= codeBits.Length && forall i :: 0 <= i < n ==> codeBits[i] <= MAX_BITS
    ensures fresh(ranks) && ranks.Length == MAX_BITS + 1
    ensures forall bits :: 0 <= bits <= MAX_BITS ==> ranks[bits] == CountOf(codeBits[..n], bits)
  {
    ranks := new nat[MAX_BITS + 1](_ => 0);
    ghost var lengths := codeBits[..n];
    for i := 0 to n
      modifies ranks
      invariant forall bits :: 0 <= bits <= MAX_BITS ==> ranks[bits] == CountOf(lengths[..i], bits)
    {
      assert lengths[..i + 1][..i] == lengths[..i];
      ranks[codeBits[i]] := ranks[codeBits[i]] + 1;
    }
    assert lengths[..n] == lengths;
  }

  method RankStarts(ranks: array<nat>, tableBits: nat, ghost lengths: seq<nat>) returns (starts: array<nat>)
    requires 1 <= tableBits <= MAX_BITS && ranks.Length == MAX_BITS + 1
    requires forall bits :: 0 <= bits <= MAX_BITS ==> ranks[bits] == CountOf(lengths, bits)
    ensures fresh(starts) && starts.Length == MAX_BITS + 1
    ensures forall bits :: 0 <= bits <= tableBits ==> starts[bits] == RankStart(lengths, tableBits, bits)
  {
    hide RankStart, CountOf;
    starts := new nat[MAX_BITS + 1](_ => 0);
    NothingLonger(lengths, tableBits);
    for bits := tableBits downto 0
      modifies starts
      invariant forall b :: bits <= b <= tableBits ==> starts[b] == RankStart(lengths, tableBits, b)
    {
      RankStep(lengths, tableBits, bits + 1);
      starts[bits] := starts[bits + 1] + ranks[bits + 1] * Width(tableBits, bits + 1);
    }
  }

  /** First free slot of a rank once the symbols below `count` have their runs. */
  ghost function Cursor(lengths: seq<nat>, tableBits: nat, bits: nat, count: nat): nat
    requires bits <= tableBits && count <= |lengths|
  {
    RankStart(lengths, tableBits, bits) + CountOf(lengths[..count], bits) * Width(tableBits, bits)
  }

  lemma LengthsFit(lengths: seq<nat>, tableBits: nat)
    requires Complete(lengths, tableBits)
    ensures tableBits <= 11 && |lengths| <= 256
    ensures forall i :: 0 <= i < |lengths| ==> lengths[i] <= tableBits
  {
  }

  lemma CursorsStart(lengths: seq<nat>, tableBits: nat)
    requires Complete(lengths, tableBits)
    ensures forall bits :: 0 < bits <= tableBits ==>
              RankStart(lengths, tableBits, bits) == Cursor(lengths, tableBits, bits, 0)
  {
    hide RankStart, Width;
  }

  lemma CursorsMove(lengths: seq<nat>, tableBits: nat, symbol: nat)
    requires Complete(lengths, tableBits) && symbol < |lengths|
    ensures lengths[symbol] > 0
        ==> Cursor(lengths, tableBits, lengths[symbol], symbol) == Start(lengths, tableBits, symbol)
    ensures forall bits :: 0 < bits <= tableBits ==>
              (Cursor(lengths, tableBits, bits, symbol + 1)
               == Cursor(lengths, tableBits, bits, symbol) + if bits == lengths[symbol] then Width(tableBits, bits)
                   else 0)
  {
    hide RankStart, Width;
    assert lengths[..symbol + 1][..symbol] == lengths[..symbol];
    forall bits | 0 < bits <= tableBits
      ensures Cursor(lengths, tableBits, bits, symbol + 1) ==
              Cursor(lengths, tableBits, bits, symbol) + if bits == lengths[symbol] then Width(tableBits, bits) else 0
    {
      MulDistributive(Width(tableBits, bits), CountOf(lengths[..symbol], bits), 1);
    }
  }

  /** The symbols below `count` have written their runs. */
  ghost predicate Filled(entries: seq<Entry>, lengths: seq<nat>, tableBits: nat, count: nat)
    requires Complete(lengths, tableBits) && Pow2(tableBits) <= |entries|
  {
    forall slot :: 0 <= slot < Pow2(tableBits) && Owner(lengths, tableBits, slot) < count ==>
      EntryIs(entries[slot], lengths, tableBits, slot)
  }

  lemma NothingFilled(entries: seq<Entry>, lengths: seq<nat>, tableBits: nat)
    requires Complete(lengths, tableBits) && Pow2(tableBits) <= |entries|
    ensures Filled(entries, lengths, tableBits, 0)
  {
    hide Owner;
  }

  lemma SkipFilled(entries: seq<Entry>, lengths: seq<nat>, tableBits: nat, symbol: nat)
    requires Complete(lengths, tableBits) && Pow2(tableBits) <= |entries|
    requires symbol < |lengths| && lengths[symbol] == 0 && Filled(entries, lengths, tableBits, symbol)
    ensures Filled(entries, lengths, tableBits, symbol + 1)
  {
    hide Complete, Owner;
  }

  lemma RunFilled(before: seq<Entry>, after: seq<Entry>, lengths: seq<nat>, tableBits: nat, symbol: u8)
    requires Complete(lengths, tableBits) && Pow2(tableBits) <= |before| == |after| && Coded(lengths, symbol)
    requires lengths[symbol] < 256 && Filled(before, lengths, tableBits, symbol)
    requires forall slot :: 0 <= slot < |after| ==>
               after[slot] == if Owns(lengths, tableBits, symbol, slot) then Entry(symbol, lengths[symbol])
                   else before[slot]
    ensures Filled(after, lengths, tableBits, symbol + 1)
  {
    hide RankStart, CountOf, Pow2, Owner, Start, Width;
    forall slot | 0 <= slot < Pow2(tableBits) && Owner(lengths, tableBits, slot) < symbol + 1
      ensures EntryIs(after[slot], lengths, tableBits, slot)
    {
      if Owns(lengths, tableBits, symbol, slot) {
        OwnerUnique(lengths, tableBits, symbol, Owner(lengths, tableBits, slot), slot);
      }
    }
  }

  class Table {
    const entries: array<Entry>
    const scratch: FseTable.Table
    var tableBits: nat
    ghost var lengths: seq<nat>

    ghost predicate Valid()
      reads this, entries, scratch
    {
      && entries.Length >= 2048
      && scratch.Valid()
      && (tableBits != 0 ==> Tabulates(entries[..], lengths, tableBits))
    }

    ghost function View(): CodeView
      reads this
    {
      if tableBits == 0 then NoCode else Code(lengths, tableBits)
    }

    constructor (entries: array<Entry>, scratch: FseTable.Table)
      requires entries.Length >= 2048 && scratch.Valid()
      ensures Valid() && View() == NoCode && this.entries == entries && this.scratch == scratch
    {
      this.entries := entries;
      this.scratch := scratch;
      this.tableBits := 0;
    }

    predicate IsValid()
      reads this
      ensures IsValid() <==> View() != NoCode
    {
      tableBits != 0
    }

    method Reset()
      requires Valid()
      modifies this, scratch
      ensures Valid() && View() == NoCode && scratch.View() == FseTable.NO_TABLE
    {
      tableBits := 0;
      scratch.Reset();
    }

    /** Writes the run of one symbol. */
    method FillRun(start: nat, end: nat, symbol: u8, bits: u8)
      requires start <= end <= entries.Length
      modifies entries
      ensures forall slot :: start <= slot < end ==> entries[slot] == Entry(symbol, bits)
      ensures forall slot :: 0 <= slot < entries.Length && !(start <= slot < end) ==>
                entries[slot] == old(entries[slot])
    {
      for slot := start to end
        invariant forall k :: start <= k < slot ==> entries[k] == Entry(symbol, bits)
        invariant forall k :: 0 <= k < entries.Length && !(start <= k < slot) ==> entries[k] == old(entries[k])
      {
        entries[slot] := Entry(symbol, bits);
      }
    }

    /** Hands every symbol the next run of its rank. The error return of the
        source is the result `false`; it is never taken. */
    method FillRuns(codeBits: array<nat>, n: nat, starts: array<nat>, width: nat, ghost lengths: seq<nat>)
      returns (ok: bool)
      requires n <= codeBits.Length && codeBits[..n] == lengths && Complete(lengths, width)
      requires starts != codeBits && starts.Length == MAX_BITS + 1 && Pow2(width) <= entries.Length
      requires forall bits :: 0 <= bits <= width ==> starts[bits] == RankStart(lengths, width, bits)
      modifies entries, starts
      ensures ok && Filled(entries[..], lengths, width, n)
    {
      hide RankStart, CountOf, Pow2, Owner, Start, Width, Filled;
      LengthsFit(lengths, width);
      CursorsStart(lengths, width);
      NothingFilled(entries[..], lengths, width);
      var used := Pow2(width);
      for symbol := 0 to n
        invariant codeBits[..n] == lengths
        invariant forall bits :: 0 < bits <= width ==> starts[bits] == Cursor(lengths, width, bits, symbol)
        invariant Filled(entries[..], lengths, width, symbol)
      {
        var bits := codeBits[symbol];
        assert bits == lengths[symbol];
        CursorsMove(lengths, width, symbol);
        if bits == 0 {
          SkipFilled(entries[..], lengths, width, symbol);
        } else {
          var start := starts[bits];
          var end := start + Width(width, bits);
          RunInside(lengths, width, symbol);
          if end > used {
            return false;
          }
          ghost var before := entries[..];
          FillRun(start, end, symbol, bits);
          RunFilled(before, entries[..], lengths, width, symbol);
          starts[bits] := end;
        }
      }
      ok := true;
    }

    /** Builds the canonical code of a weight list; fails exactly on the lists that describe none. */
    method Build(weights: seq<u8>) returns (r: Result<(), DecodeError>)
      requires Valid()
      modifies this, entries
      ensures Valid()
      ensures r == if Acceptable(weights) then Ok(()) else Err(InvalidEntropyTable)
      ensures View() == if Acceptable(weights) then BuiltCode(weights) else old(View())
    {
      hide WeightSum, Pow2, Log2, RankStart, Complete, Owner;
      if |weights| == 0 || |weights| >= 256 {
        return Err(InvalidEntropyTable);
      }
      var sum :- SumWeights(weights);
      if sum == 0 {
        return Err(InvalidEntropyTable);
      }
      var bits := TableBits(sum);
      if bits > MAX_BITS {
        return Err(InvalidEntropyTable);
      }
      var remainder := Pow2(bits) - sum;
      if !PowerOfTwo(remainder) {
        return Err(InvalidEntropyTable);
      }
      assert Acceptable(weights);
      var filled := FillTable(weights, bits, Log2(remainder) + 1);
      if !filled {
        return Err(InvalidEntropyTable);
      }
      r := Ok(());
    }

    /** Decodes four streams into consecutive segments of output[..n]. */
    method DecodeFourInto(input: seq<u8>, output: array<u8>, n: nat) returns (r: Result<(), DecodeError>)
      requires Valid() && n <= output.Length && WellFormed(View())
      modifies output
      ensures output[n..] == old(output[n..])
      ensures
        match DecodeFour(View(), input, n)
        case Err(e) => r == Err(e)
        case Ok(symbols) => r == Ok(()) && output[..n] == symbols
    {
      hide StrictDecode, Tabulates, Complete, WellFormed, DecodeStreams, SegmentStart;
      if |input| < 6 {
        return Err(InvalidBitstream);
      }
      var bounds := StreamBounds(input);
      if bounds[3] > |input| {
        return Err(InvalidBitstream);
      }
      ghost var view := View();
      SegmentsCover(n, 0);
      PrependNothing(DecodeStreams(view, input, bounds, n, 0));
      assert output[..0] == [];
      for stream := 0 to 4
        invariant output[n..] == old(output[n..])
        invariant DecodeFour(view, input, n)
               == Prepend(output[..SegmentStart(n, stream)], DecodeStreams(view, input, bounds, n, stream))
      {
        var start, end := SegmentStart(n, stream), SegmentStart(n, stream + 1);
        var part := StreamPart(input, bounds, stream);
        ghost var before := output[..];
        StreamStep(view, input, bounds, n, stream, output[..start]);
        if start != end {
          var _ :- DecodeInto(part, output, start, end);
        }
        assert output[..end] == before[..start] + output[start..end];
        assert output[n..] == output[end..][n - end..];
      }
      StreamsEnd(view, input, bounds, n);
      assert output[..n] + [] == output[..n];
      r := Ok(());
    }

    /** The error returns of the source for a table that is not full are the
        results `false`; they are never taken. */
    method FillTable(weights: seq<u8>, bits: nat, implied: nat) returns (ok: bool)
      requires Valid() && Acceptable(weights)
      requires bits == TableBits(WeightSum(weights)) && implied == ImpliedWeight(weights)
      modifies this, entries
      ensures ok && Valid() && View() == BuiltCode(weights)
    {
      hide WeightSum, Pow2, Log2, RankStart, Owner, CountOf, TableBits, ImpliedWeight, Acceptable, Lengths, Filled,
          Tabulates;
      AcceptableIsComplete(weights);
      BitsBound(weights);
      var n := |weights| + 1;
      var codeBits := CodeLengths(weights, bits, implied);
      ghost var code := Lengths(weights);
      var ranks := CountRanks(codeBits, n);
      var starts := RankStarts(ranks, bits, code);
      CompleteSum(code, bits);
      if starts[0] != Pow2(bits) {
        return false;
      }
      var filled := FillRuns(codeBits, n, starts, bits, code);
      if !filled {
        return false;
      }
      AllFilled(entries[..], code, bits);
      tableBits := bits;
      lengths := code;
      ok := true;
    }

    /** Decodes one symbol for every place in output[from..to]. Strict: the bits
        must be used up exactly. */
    method DecodeInto(input: seq<u8>, output: array<u8>, from: nat, to: nat) returns (r: Result<(), DecodeError>)
      requires Valid() && from <= to <= output.Length
      modifies output
      ensures output[..from] == old(output[..from]) && output[to..] == old(output[to..])
      ensures
        match StrictDecode(View(), input, to - from)
        case Err(e) => r == Err(e)
        case Ok(symbols) => r == Ok(()) && output[from..to] == symbols
    {
      hide Complete, Owner, Downward, Pow2, Peek, Start, Width;
      if tableBits == 0 {
        return Err(InvalidEntropyTable);
      }
      var bits :- BackwardBits.Open(input);
      ghost var whole := bits.Stream();
      PrependNothing(Decode(lengths, tableBits, whole, to - from));
      assert output[from..from] == [];
      for k := from to to
        invariant bits.Valid()
        invariant Decode(lengths, tableBits, whole, to - from)
               == Prepend(output[from..k], Decode(lengths, tableBits, bits.Stream(), to - k))
        invariant output[..from] == old(output[..from]) && output[to..] == old(output[to..])
      {
        BitsFit(lengths, tableBits);
        var index := bits.PeekPadded(tableBits);
        EntryFound(entries[..], lengths, tableBits, index);
        var entry := entries[index];
        if entry.bits == 0 {
          return Err(InvalidEntropyTable);
        }
        ghost var s, done := bits.Stream(), output[from..k];
        DecodeStep(lengths, tableBits, s, to - k, done);
        var consumed :- bits.Consume(entry.bits);
        output[k] := entry.symbol;
        assert output[from..k + 1] == done + [entry.symbol];
      }
      if bits.remaining != 0 {
        return Err(InvalidBitstream);
      }
      r := Ok(());
    }
  }

  lemma CompleteSum(lengths: seq<nat>, tableBits: nat)
    requires Complete(lengths, tableBits)
    ensures RankStart(lengths, tableBits, 0) == Pow2(tableBits)
  {
  }

  ghost predicate WellFormed(view: CodeView)
  {
    view.Code? ==> Complete(view.lengths, view.tableBits)
  }

  /** The symbols that `input` spells below its end marker, if it spells exactly n. */
  ghost function StrictDecode(view: CodeView, input: seq<u8>, n: nat): (r: Result<seq<u8>, DecodeError>)
    requires WellFormed(view)
  {
    match view
    case NoCode => Err(InvalidEntropyTable)
    case Code(lengths, tableBits) =>
      match Payload(input)
      case None => Err(InvalidBitstream)
      case Some(s) => Decode(lengths, tableBits, s, n)
  }

  ghost function Prepend(done: seq<u8>, r: Result<seq<u8>, DecodeError>): Result<seq<u8>, DecodeError>
  {
    match r
    case Err(e) => Err(e)
    case Ok(symbols) => Ok(done + symbols)
  }

  lemma PrependNothing(r: Result<seq<u8>, DecodeError>)
    ensures Prepend([], r) == r
  {
    if r.Ok? { assert [] + r.value == r.value; }
  }

  lemma BitsFit(lengths: seq<nat>, tableBits: nat)
    requires Complete(lengths, tableBits)
    ensures tableBits <= 32
  {
  }

  lemma EntryFound(entries: seq<Entry>, lengths: seq<nat>, tableBits: nat, slot: nat)
    requires Tabulates(entries, lengths, tableBits) && slot < Pow2(tableBits)
    ensures slot < |entries|
    ensures entries[slot].symbol == Owner(lengths, tableBits, slot)
    ensures entries[slot].bits == lengths[Owner(lengths, tableBits, slot)] > 0
  {
    hide RankStart, Start, Width, Pow2;
    assert EntryIs(entries[slot], lengths, tableBits, slot);
  }

  /** One symbol of `Decode`, behind those already decoded. */
  lemma DecodeStep(lengths: seq<nat>, tableBits: nat, s: seq<bit>, n: nat, done: seq<u8>)
    requires Complete(lengths, tableBits) && n > 0
    ensures
      var symbol := Owner(lengths, tableBits, Peek(s, tableBits));
      && symbol < 256
      && Prepend(done, Decode(lengths, tableBits, s, n)) ==
         if lengths[symbol] > |s| then Err(InvalidBitstream)
         else Prepend(done + [symbol], Decode(lengths, tableBits, s[lengths[symbol]..], n - 1))
  {
    hide Owner, Peek, RankStart, Start, Width, Pow2;
    var symbol := Owner(lengths, tableBits, Peek(s, tableBits));
    if lengths[symbol] <= |s| {
      var rest := Decode(lengths, tableBits, s[lengths[symbol]..], n - 1);
      if rest.Ok? {
        assert done + [symbol] + rest.value == done + ([symbol] + rest.value);
      }
    }
  }

  // ----- four streams

  function Word16(input: seq<u8>, at: nat): nat
    requires at + 2 <= |input|
  {
    input[at] as int + 256 * input[at + 1] as int
  }

  /** Where the four streams begin, and where the last one ends. */
  function StreamBounds(input: seq<u8>): (bounds: seq<nat>)
    requires |input| >= 6
    ensures |bounds| == 5
  {
    var second := 6 + Word16(input, 0);
    var third := second + Word16(input, 2);
    var fourth := third + Word16(input, 4);
    [6, second, third, fourth, |input|]
  }

  /** Every stream regenerates a quarter of the n symbols, rounded up, until none are left. */
  function SegmentStart(n: nat, stream: nat): (start: nat)
    ensures start <= n
  {
    Min(stream * ((n + 3) / 4), n)
  }

  /** The segments partition the n symbols. */
  lemma SegmentsCover(n: nat, stream: nat)
    requires stream < 4
    ensures SegmentStart(n, 0) == 0 && SegmentStart(n, 4) == n
    ensures SegmentStart(n, stream + 1) == Min(SegmentStart(n, stream) + (n + 3) / 4, n)
    ensures SegmentStart(n, stream) <= SegmentStart(n, stream + 1)
  {
    assert (stream + 1) * ((n + 3) / 4) == stream * ((n + 3) / 4) + (n + 3) / 4;
  }

  predicate Ordered(input: seq<u8>, bounds: seq<nat>)
  {
    |bounds| == 5 && bounds[0] <= bounds[1] <= bounds[2] <= bounds[3] <= bounds[4] <= |input|
  }

  function StreamPart(input: seq<u8>, bounds: seq<nat>, stream: nat): seq<u8>
    requires Ordered(input, bounds) && stream < 4
  {
    input[bounds[stream]..bounds[stream + 1]]
  }

  ghost function DecodeSegment(view: CodeView, input: seq<u8>, n: nat): Result<seq<u8>, DecodeError>
    requires WellFormed(view)
  {
    if n == 0 then Ok([]) else StrictDecode(view, input, n)
  }

  ghost function DecodeStreams(view: CodeView, input: seq<u8>, bounds: seq<nat>, n: nat, stream: nat)
    : (r: Result<seq<u8>, DecodeError>)
    requires WellFormed(view) && Ordered(input, bounds) && stream <= 4
    decreases 4 - stream
  {
    if stream == 4 then Ok([])
    else
      SegmentsCover(n, stream);
      var first :- DecodeSegment(view, StreamPart(input, bounds, stream),
          SegmentStart(n, stream + 1) - SegmentStart(n, stream));
      var rest :- DecodeStreams(view, input, bounds, n, stream + 1);
      Ok(first + rest)
  }

  /** The n symbols that four streams behind a jump table regenerate. */
  ghost function DecodeFour(view: CodeView, input: seq<u8>, n: nat): (r: Result<seq<u8>, DecodeError>)
    requires WellFormed(view)
  {
    if |input| < 6 || StreamBounds(input)[3] > |input| then Err(InvalidBitstream)
    else DecodeStreams(view, input, StreamBounds(input), n, 0)
  }

  lemma StreamsEnd(view: CodeView, input: seq<u8>, bounds: seq<nat>, n: nat)
    requires WellFormed(view) && Ordered(input, bounds)
    ensures DecodeStreams(view, input, bounds, n, 4) == Ok([])
  {
  }

  /** One stream of `DecodeStreams`, behind the symbols already decoded. */
  lemma StreamStep(view: CodeView, input: seq<u8>, bounds: seq<nat>, n: nat, stream: nat, done: seq<u8>)
    requires WellFormed(view) && Ordered(input, bounds) && stream < 4
    ensures SegmentStart(n, stream) <= SegmentStart(n, stream + 1)
    ensures
      var part :=
          DecodeSegment(view, StreamPart(input, bounds, stream), SegmentStart(n, stream + 1) - SegmentStart(n, stream));
      Prepend(done, DecodeStreams(view, input, bounds, n, stream)) ==
      match part
      case Err(e) => Err(e)
      case Ok(symbols) => Prepend(done + symbols, DecodeStreams(view, input, bounds, n, stream + 1))
  {
    hide StrictDecode, Complete, WellFormed, SegmentStart, DecodeSegment, StreamPart;
    SegmentsCover(n, stream);
    var part :=
        DecodeSegment(view, StreamPart(input, bounds, stream), SegmentStart(n, stream + 1) - SegmentStart(n, stream));
    if part.Ok? {
      var rest := DecodeStreams(view, input, bounds, n, stream + 1);
      if rest.Ok? {
        assert done + part.value + rest.value == done + (part.value + rest.value);
      }
    }
  }

  method SumWeights(weights: seq<u8>) returns (r: Result<nat, DecodeError>)
    ensures r == if forall i :: 0 <= i < |weights| ==> weights[i] <= MAX_BITS then Ok(WeightSum(weights))
        else Err(InvalidEntropyTable)
  {
    var sum: nat := 0;
    for i := 0 to |weights|
      invariant forall k :: 0 <= k < i ==> weights[k] <= MAX_BITS
      invariant sum == WeightSum(weights[..i])
    {
      if weights[i] > MAX_BITS {
        return Err(InvalidEntropyTable);
      }
      assert weights[..i + 1][..i] == weights[..i];
      sum := sum + WeightShare(weights[i]);
    }
    assert weights[..|weights|] == weights;
    r := Ok(sum);
  }

  method CodeLengths(weights: seq<u8>, bits: nat, implied: nat) returns (codeBits: array<nat>)
    requires Acceptable(weights) && bits == TableBits(WeightSum(weights)) && implied == ImpliedWeight(weights)
    ensures fresh(codeBits) && codeBits.Length == 256 && codeBits[..|weights| + 1] == Lengths(weights)
    ensures forall i :: 0 <= i <= |weights| ==> codeBits[i] <= MAX_BITS
  {
    hide WeightSum, TableBits, ImpliedWeight, Pow2, Log2;
    WeightsFit(weights);
    codeBits := new nat[256](_ => 0);
    for i := 0 to |weights|
      invariant forall k :: 0 <= k < i ==> codeBits[k] == LengthOf(weights[k], bits)
    {
      codeBits[i] := LengthOf(weights[i], bits);
    }
    codeBits[|weights|] := LengthOf(implied, bits);
  }

  lemma BitsBound(weights: seq<u8>)
    requires Acceptable(weights)
    ensures TableBits(WeightSum(weights)) <= MAX_BITS
    ensures Pow2(TableBits(WeightSum(weights))) <= 2048
  {
    Pow2Values();
    Pow2Monotone(TableBits(WeightSum(weights)), MAX_BITS);
  }

  lemma AllFilled(entries: seq<Entry>, lengths: seq<nat>, tableBits: nat)
    requires Complete(lengths, tableBits) && Pow2(tableBits) <= |entries|
    requires Filled(entries, lengths, tableBits, |lengths|)
    ensures Tabulates(entries, lengths, tableBits)
  {
    hide RankStart, Start, Width;
  }
}
