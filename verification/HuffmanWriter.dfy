/** Huffman codes, written (RFC 8878 sections 4.2.1 and 4.2.2): the partner of
    the readers in zstd-zero/src/huffman.rs lines 45-156 and 232-265. Weights are
    written as they are or under an FSE code, symbols as one stream or as four. */
module HuffmanWriter {
  import opened Numbers
  import opened Results
  import opened ZstdBits
  import opened FseTableSpec
  import opened FseTable
  import opened FseCoding
  import opened HuffmanCode
  import opened HuffmanTable
  import opened HuffmanDescription
  import opened ZstdPacking
  import FseSpread
  import FseDescription

  // ----- weights under an FSE code

  /** From two states and these bits on, exactly these weights are read. */
  ghost predicate Yields(t: TableView, first: nat, second: nat, s: seq<bit>, weights: seq<u8>)
  {
    forall before: seq<u8> :: |before| + |weights| <= MAX_WEIGHTS ==>
      WeightsFrom(t, first, second, s, before) == Ok(before + weights)
  }

  /** A slot of the symbol that asks for bits, so that reading can stop at it. */
  ghost predicate Pause(t: TableView, p: nat, symbol: nat)
  {
    p < |t.entries| && t.entries[p].symbol == symbol && t.entries[p].bits > 0
  }

  ghost predicate CanPause(t: TableView, symbol: nat)
  {
    exists p :: Pause(t, p, symbol)
  }

  /** Weights that an FSE table can spell: the last weight but one stops the alternation. */
  ghost predicate Spellable(t: TableView, weights: seq<u8>)
  {
    && 2 <= |weights| <= MAX_WEIGHTS
    && (forall i :: 0 <= i < |weights| ==> HasSlot(t, weights[i]))
    && CanPause(t, weights[|weights| - 2])
  }

  /** Two alternating states can spell every such list of weights. */
  lemma {:induction false} WeightsHaveACode(t: TableView, weights: seq<u8>)
    returns (first: nat, second: nat, s: seq<bit>)
    requires Tiled(t) && Spellable(t, weights)
    ensures first < Pow2(t.log) && second < Pow2(t.log) && Yields(t, first, second, s, weights)
    decreases |weights|
  {
    hide Pow2, Yields, Leads, Covers;
    if |weights| == 2 {
      first :| Pause(t, first, weights[0]);
      second := SlotBefore(t, weights[1], 0);
      s := [];
      TwoYield(t, first, second, weights);
    } else {
      var third: nat;
      var later: seq<bit>;
      assert weights[1..][|weights| - 3] == weights[|weights| - 2];
      second, third, later := WeightsHaveACode(t, weights[1..]);
      first := SlotBefore(t, weights[0], third);
      var code := StepFrom(t, first, weights[0], third);
      s := code + later;
      MoreYield(t, first, second, third, code, later, weights);
    }
  }

  lemma TwoYield(t: TableView, first: nat, second: nat, weights: seq<u8>)
    requires |weights| == 2 && Pause(t, first, weights[0]) && Before(t, second, weights[1], 0)
    ensures Yields(t, first, second, [], weights)
  {
    forall before: seq<u8> | |before| + |weights| <= MAX_WEIGHTS
      ensures WeightsFrom(t, first, second, [], before) == Ok(before + weights)
    {
      assert before + [weights[0]] + [weights[1]] == before + weights;
    }
  }

  lemma MoreYield(t: TableView, first: nat, second: nat, third: nat, code: seq<bit>, later: seq<bit>, weights: seq<u8>)
    requires |weights| > 2 && Before(t, first, weights[0], third) && |code| == t.entries[first].bits
    requires Leads(t, first, code, third) && Yields(t, second, third, later, weights[1..])
    ensures Yields(t, first, second, code + later, weights)
  {
    hide NextState;
    forall before: seq<u8> | |before| + |weights| <= MAX_WEIGHTS
      ensures WeightsFrom(t, first, second, code + later, before) == Ok(before + weights)
    {
      assert NextState(t, first, code + later) == (Ok(third), later);
      assert before + [weights[0]] + weights[1..] == before + weights;
    }
  }

  /** Both initial states, and the weights from there. */
  ghost predicate ReadsAs(t: TableView, s: seq<bit>, weights: seq<u8>)
  {
    && TopBits(s, t.log).Ok? && TopBits(s[t.log..], t.log).Ok?
    && WeightsFrom(t, TopBits(s, t.log).value, TopBits(s[t.log..], t.log).value, s[t.log..][t.log..], []) == Ok(weights)
  }

  lemma WeightBitsExist(t: TableView, weights: seq<u8>)
    requires Tiled(t) && Spellable(t, weights)
    ensures exists s :: ReadsAs(t, s, weights)
  {
    hide Pow2, TopBits, WeightsFrom, Spellable;
    var first, second, later := WeightsHaveACode(t, weights);
    var s := MsbDigits(first, t.log) + (MsbDigits(second, t.log) + later);
    TopOf(first, t.log, MsbDigits(second, t.log) + later);
    TopOf(second, t.log, later);
    SpellableFits(t, weights);
    assert WeightsFrom(t, first, second, later, []) == Ok([] + weights) && [] + weights == weights;
    assert ReadsAs(t, s, weights);
  }

  lemma SpellableFits(t: TableView, weights: seq<u8>)
    requires Spellable(t, weights)
    ensures |weights| <= MAX_WEIGHTS
  {
  }

  /** What is read has slots, and stops at a slot that asks for bits. */
  lemma {:induction false} ReadIsSpellable(t: TableView, first: nat, second: nat, s: seq<bit>, before: seq<u8>)
    requires WeightsFrom(t, first, second, s, before).Ok?
    ensures
      var all := WeightsFrom(t, first, second, s, before).value;
      && |before| + 2 <= |all| <= MAX_WEIGHTS && all[..|before|] == before && CanPause(t, all[|all| - 2])
      && forall i :: |before| <= i < |all| ==> HasSlot(t, all[i])
    decreases MAX_WEIGHTS - |before|
  {
    hide HasSlot, NextState;
    var entry, all := t.entries[first], WeightsFrom(t, first, second, s, before).value;
    StateHasSlot(t, first);
    if |s| < entry.bits {
      StateHasSlot(t, second);
      assert Pause(t, first, entry.symbol);
    } else {
      var next := NextState(t, first, s);
      ReadIsSpellable(t, second, next.0.value, next.1, before + [entry.symbol]);
      assert all[..|before| + 1][..|before|] == all[..|before|] && all[..|before| + 1][|before|] == all[|before|];
      assert (before + [entry.symbol])[..|before|] == before;
    }
  }

  lemma StateHasSlot(t: TableView, state: nat)
    requires state < |t.entries|
    ensures HasSlot(t, t.entries[state].symbol)
  {
  }

  /** A table spells a list of weights if and only if every weight has a slot and the last weight but one has a slot
      that asks for bits: otherwise the alternation never stops there. */
  lemma SpellableExactly(t: TableView, weights: seq<u8>)
    requires Tiled(t)
    ensures (exists s :: ReadsAs(t, s, weights)) <==> Spellable(t, weights)
  {
    hide Tiled, WeightsFrom, Pow2, HasSlot, CanPause, TopBits;
    if Spellable(t, weights) {
      WeightBitsExist(t, weights);
    }
    if exists s :: ReadsAs(t, s, weights) {
      var s :| ReadsAs(t, s, weights);
      ReadIsSpellable(t, TopBits(s, t.log).value, TopBits(s[t.log..], t.log).value, s[t.log..][t.log..], []);
    }
  }

  ghost function WeightBits(t: TableView, weights: seq<u8>): (s: seq<bit>)
    requires Tiled(t) && Spellable(t, weights)
    ensures ReadsAs(t, s, weights)
  {
    WeightBitsExist(t, weights);
    var s :| ReadsAs(t, s, weights);
    s
  }

  /** With a described table the weights need a count each, and the last but one not the whole table. */
  ghost predicate Squeezable(d: Distribution, weights: seq<u8>)
  {
    && Describable(d, MAX_WEIGHT_SYMBOL, MAX_WEIGHT_LOG) && 2 <= |weights| <= MAX_WEIGHTS
    && (forall i :: 0 <= i < |weights| ==> weights[i] < |d.ps| && FseSpread.Norm(d.ps[weights[i]]) > 0)
    && FseSpread.Norm(d.ps[weights[|weights| - 2]]) < Pow2(d.log)
  }

  lemma SqueezableIsSpellable(d: Distribution, weights: seq<u8>)
    requires Squeezable(d, weights)
    ensures Buildable(d.ps, d.log) && Tiled(TableOf(d.ps, d.log)) && Spellable(TableOf(d.ps, d.log), weights)
  {
    hide Pow2, Buildable, Tiled, HasSlot, Entries, Symbols;
    DescribedReads(d, MAX_WEIGHT_SYMBOL, MAX_WEIGHT_LOG, [0]);
    var t := TableOf(d.ps, d.log);
    forall i | 0 <= i < |weights|
      ensures HasSlot(t, weights[i])
    {
      SlotsAreCounts(d.ps, d.log, weights[i]);
    }
    var p := PauseExists(d.ps, d.log, weights[|weights| - 2]);
  }

  /** A symbol that does not own the whole table has a slot that asks for bits. */
  lemma PauseExists(ps: seq<i16>, log: nat, symbol: nat) returns (p: nat)
    requires Buildable(ps, log) && log != 1 && log != 3 && symbol < |ps| && 0 < FseSpread.Norm(ps[symbol]) < Pow2(log)
    ensures Pause(TableOf(ps, log), p, symbol)
  {
    hide Symbols, Counter, FseSpread.Total;
    p := SlotWithCounter(ps, log, symbol, FseSpread.Norm(ps[symbol]));
    assert TableOf(ps, log).entries[p] == EntryAt(ps, log, p);
  }

  ghost function SqueezedBytes(d: Distribution, weights: seq<u8>): seq<u8>
    requires Squeezable(d, weights)
  {
    SqueezableIsSpellable(d, weights);
    DescriptionBytes(d, MAX_WEIGHT_SYMBOL, MAX_WEIGHT_LOG) + Packed(WeightBits(TableOf(d.ps, d.log), weights))
  }

  lemma SqueezedRead(d: Distribution, weights: seq<u8>)
    requires Squeezable(d, weights)
    ensures CompressedWeights(SqueezedBytes(d, weights)) == Ok(weights)
  {
    hide Buildable, Tiled, Entries, Spellable, Built, FseDescription.DescriptionOf, FseDescription.Describe, Payload,
        Packed, WeightsFrom, Pow2, WholeBytes;
    SqueezableIsSpellable(d, weights);
    var t := TableOf(d.ps, d.log);
    var s := WeightBits(t, weights);
    var front, input := DescriptionBytes(d, MAX_WEIGHT_SYMBOL, MAX_WEIGHT_LOG), SqueezedBytes(d, weights);
    PackedPayload(s);
    PackedIsSome(s);
    DescribedReads(d, MAX_WEIGHT_SYMBOL, MAX_WEIGHT_LOG, Packed(s));
    assert input[|front|..] == Packed(s);
  }

  // ----- descriptions

  /** How a code is given: weights as they are, weights under an FSE code, or the code that is in force. */
  datatype Tree = Direct(weights: seq<u8>) | Squeezed(weights: seq<u8>, d: Distribution) | Kept

  ghost predicate ValidTree(tree: Tree, code: CodeView)
  {
    match tree
    case Direct(weights) => Acceptable(weights) && |weights| <= 128
    case Squeezed(weights, d) => Acceptable(weights) && Squeezable(d, weights) && |SqueezedBytes(d, weights)| < 128
    case Kept => code != NoCode
  }

  ghost function CodeOf(tree: Tree, code: CodeView): CodeView
    requires ValidTree(tree, code)
  {
    match tree case Kept => code case _ => BuiltCode(tree.weights)
  }

  /** Two weights to a byte. */
  function Nibbles(weights: seq<u8>): (packed: seq<u8>)
    requires forall i :: 0 <= i < |weights| ==> weights[i] < 16
    ensures |packed| == (|weights| + 1) / 2
  {
    if weights == [] then []
    else if |weights| == 1 then [16 * weights[0]]
    else [16 * weights[0] + weights[1]] + Nibbles(weights[2..])
  }

  lemma {:induction false} NibblesAt(weights: seq<u8>, i: nat)
    requires forall k :: 0 <= k < |weights| ==> weights[k] < 16
    requires i < |weights|
    ensures Nibble(Nibbles(weights)[i / 2], i) == weights[i]
    decreases |weights|
  {
    if i >= 2 {
      NibblesAt(weights[2..], i - 2);
      assert Nibbles(weights)[i / 2] == Nibbles(weights[2..])[(i - 2) / 2];
    }
  }

  ghost function TreeBytes(tree: Tree, code: CodeView): seq<u8>
    requires ValidTree(tree, code)
  {
    match tree
    case Direct(weights) => [127 + |weights|] + Nibbles(weights)
    case Squeezed(weights, d) => [|SqueezedBytes(d, weights)|] + SqueezedBytes(d, weights)
    case Kept => []
  }

  /** Every written description reads back as its weights, whatever follows. */
  lemma TreeReads(tree: Tree, code: CodeView, streams: seq<u8>)
    requires ValidTree(tree, code) && !tree.Kept?
    ensures TreeOf(TreeBytes(tree, code) + streams) == Ok((tree.weights, |TreeBytes(tree, code)|))
  {
    hide CompressedWeights, SqueezedBytes, Squeezable, WeightSum, PowerOfTwo;
    match tree
    case Direct(weights) => WeightsRead(weights, streams);
    case Squeezed(weights, d) =>
      var body := SqueezedBytes(d, weights);
      SqueezedRead(d, weights);
      SqueezedIsSome(d, weights);
      assert ([|body|] + body + streams)[1..1 + |body|] == body;
  }

  lemma SqueezedIsSome(d: Distribution, weights: seq<u8>)
    requires Squeezable(d, weights)
    ensures SqueezedBytes(d, weights) != []
  {
    hide Squeezable, Packed, DescriptionBytes, Tiled, Spellable, Buildable, Entries;
    SqueezableIsSpellable(d, weights);
    PackedIsSome(WeightBits(TableOf(d.ps, d.log), weights));
  }

  lemma WeightsRead(weights: seq<u8>, streams: seq<u8>)
    requires 0 < |weights| <= 128 && forall i :: 0 <= i < |weights| ==> weights[i] <= MAX_BITS
    ensures TreeOf([127 + |weights|] + Nibbles(weights) + streams) == Ok((weights, 1 + |Nibbles(weights)|))
  {
    hide Nibble;
    var packed := Nibbles(weights);
    var input := [127 + |weights|] + packed + streams;
    assert input[1..1 + |packed|] == packed;
    forall i | 0 <= i < |weights|
      ensures DirectWeights(packed, |weights|)[i] == weights[i]
    {
      NibblesAt(weights, i);
    }
    assert DirectWeights(packed, |weights|) == weights;
  }

  // ----- symbols

  /** All symbols have a word in the code. */
  ghost predicate Sayable(code: CodeView, symbols: seq<u8>)
  {
    code.Code? && Complete(code.lengths, code.tableBits) && AllCoded(code.lengths, symbols)
  }

  ghost function OneStream(code: CodeView, symbols: seq<u8>): seq<u8>
    requires Sayable(code, symbols)
  {
    Packed(Spell(code.lengths, code.tableBits, symbols))
  }

  lemma OneStreamReads(code: CodeView, symbols: seq<u8>)
    requires Sayable(code, symbols)
    ensures StrictDecode(code, OneStream(code, symbols), |symbols|) == Ok(symbols)
  {
    hide Payload, Packed, Complete, Decode, Spell, AllCoded;
    var s := Spell(code.lengths, code.tableBits, symbols);
    PackedPayload(s);
    DecodeInvertsSpell(code.lengths, code.tableBits, s, symbols);
  }

  /** The symbols of one of the four streams. */
  function Quarter(symbols: seq<u8>, stream: nat): seq<u8>
    requires stream < 4
  {
    SegmentsCover(|symbols|, stream);
    symbols[SegmentStart(|symbols|, stream)..SegmentStart(|symbols|, stream + 1)]
  }

  lemma QuartersJoin(symbols: seq<u8>)
    ensures Quarter(symbols, 0) + (Quarter(symbols, 1) + (Quarter(symbols, 2) + (Quarter(symbols, 3) + []))) == symbols
  {
    var n := |symbols|;
    SegmentsCover(n, 0);
    SegmentsCover(n, 1);
    SegmentsCover(n, 2);
    SegmentsCover(n, 3);
    hide SegmentStart;
    FiveCuts(symbols, SegmentStart(n, 1), SegmentStart(n, 2), SegmentStart(n, 3));
  }

  lemma FiveCuts(symbols: seq<u8>, a: nat, b: nat, c: nat)
    requires a <= b <= c <= |symbols|
    ensures symbols[0..a] + (symbols[a..b] + (symbols[b..c] + (symbols[c..|symbols|] + []))) == symbols
  {
  }

  ghost function StreamOf(code: CodeView, symbols: seq<u8>, stream: nat): seq<u8>
    requires Sayable(code, symbols) && stream < 4
  {
    QuarterSayable(code, symbols, stream);
    OneStream(code, Quarter(symbols, stream))
  }

  lemma QuarterSayable(code: CodeView, symbols: seq<u8>, stream: nat)
    requires Sayable(code, symbols) && stream < 4
    ensures Sayable(code, Quarter(symbols, stream))
  {
    hide Complete, SegmentStart;
    SegmentsCover(|symbols|, stream);
  }

  /** The first three streams are short enough for the jump table. */
  ghost predicate Jumpable(code: CodeView, symbols: seq<u8>)
  {
    && Sayable(code, symbols) && |StreamOf(code, symbols, 0)| < 0x1_0000
    && |StreamOf(code, symbols, 1)| < 0x1_0000 && |StreamOf(code, symbols, 2)| < 0x1_0000
  }

  function TwoBytes(n: nat): (bytes: seq<u8>)
    requires n < 0x1_0000
    ensures |bytes| == 2
  {
    [n % 256, n / 256]
  }

  ghost function FourStreams(code: CodeView, symbols: seq<u8>): seq<u8>
    requires Jumpable(code, symbols)
  {
    var a, b, c, d :=
        StreamOf(code, symbols, 0), StreamOf(code, symbols, 1), StreamOf(code, symbols, 2), StreamOf(code, symbols, 3);
    Jumps(|a|, |b|, |c|) + (a + (b + (c + d)))
  }

  function Jumps(a: nat, b: nat, c: nat): (bytes: seq<u8>)
    requires a < 0x1_0000 && b < 0x1_0000 && c < 0x1_0000
    ensures |bytes| == 6
  {
    TwoBytes(a) + TwoBytes(b) + TwoBytes(c)
  }

  lemma JumpsLead(a: seq<u8>, b: seq<u8>, c: seq<u8>, d: seq<u8>)
    requires |a| < 0x1_0000 && |b| < 0x1_0000 && |c| < 0x1_0000
    ensures
      var input := Jumps(|a|, |b|, |c|) + (a + (b + (c + d)));
      var bounds := [6, 6 + |a|, 6 + |a| + |b|, 6 + |a| + |b| + |c|, 6 + |a| + |b| + |c| + |d|];
      && |input| >= 6 && StreamBounds(input) == bounds && Ordered(input, bounds)
      && StreamPart(input, bounds, 0) == a && StreamPart(input, bounds, 1) == b
      && StreamPart(input, bounds, 2) == c && StreamPart(input, bounds, 3) == d
  {
    var jumps := Jumps(|a|, |b|, |c|);
    var input := jumps + (a + (b + (c + d)));
    assert input[..6] == jumps;
    assert forall k :: 0 <= k < 6 ==> input[k] == jumps[k];
    assert input[0] == |a| % 256 && input[1] == |a| / 256 && input[2] == |b| % 256 && input[3] == |b| / 256;
    assert input[4] == |c| % 256 && input[5] == |c| / 256;
  }

  lemma SegmentReads(code: CodeView, symbols: seq<u8>, stream: nat)
    requires Sayable(code, symbols) && stream < 4
    ensures DecodeSegment(code, StreamOf(code, symbols, stream), |Quarter(symbols, stream)|)
        == Ok(Quarter(symbols, stream))
  {
    hide Complete, SegmentStart, StrictDecode, OneStream, AllCoded;
    QuarterSayable(code, symbols, stream);
    OneStreamReads(code, Quarter(symbols, stream));
  }

  /** Four streams read back as their symbols. */
  lemma FourStreamsRead(code: CodeView, symbols: seq<u8>)
    requires Jumpable(code, symbols)
    ensures WellFormed(code) && DecodeFour(code, FourStreams(code, symbols), |symbols|) == Ok(symbols)
  {
    hide Complete, SegmentStart, StreamOf, Quarter, DecodeSegment, DecodeStreams, StreamPart, Jumps, AllCoded;
    var n := |symbols|;
    var a, b, c, d :=
        StreamOf(code, symbols, 0), StreamOf(code, symbols, 1), StreamOf(code, symbols, 2), StreamOf(code, symbols, 3);
    var input := FourStreams(code, symbols);
    JumpsLead(a, b, c, d);
    var bounds := StreamBounds(input);
    StreamsEnd(code, input, bounds, n);
    QuarterStep(code, symbols, input, bounds, 3, []);
    QuarterStep(code, symbols, input, bounds, 2, Quarter(symbols, 3) + []);
    QuarterStep(code, symbols, input, bounds, 1, Quarter(symbols, 2) + (Quarter(symbols, 3) + []));
    QuarterStep(code, symbols, input, bounds, 0,
        Quarter(symbols, 1) + (Quarter(symbols, 2) + (Quarter(symbols, 3) + [])));
    QuartersJoin(symbols);
  }

  lemma QuarterStep(code: CodeView, symbols: seq<u8>, input: seq<u8>, bounds: seq<nat>, stream: nat, later: seq<u8>)
    requires Sayable(code, symbols) && Ordered(input, bounds) && stream < 4
    requires StreamPart(input, bounds, stream) == StreamOf(code, symbols, stream)
    requires DecodeStreams(code, input, bounds, |symbols|, stream + 1) == Ok(later)
    ensures DecodeStreams(code, input, bounds, |symbols|, stream) == Ok(Quarter(symbols, stream) + later)
  {
    hide Complete, SegmentStart, StreamOf, DecodeSegment, StreamPart, AllCoded;
    SegmentsCover(|symbols|, stream);
    SegmentReads(code, symbols, stream);
  }
}
