/** Canonical Huffman codes (zstd-zero/src/huffman.rs lines 157-229, RFC 8878
    section 4.2.1): code lengths from weights, the run of table slots of each
    symbol, and why the runs tile the table. */
module HuffmanCode {
  import opened Numbers
  import opened Results
  import opened ZstdErrors
  import opened Counting
  import opened ZstdBits

  const MAX_BITS: nat := 11

  // ----- from weights to code lengths

  function WeightShare(weight: nat): nat
  {
    if weight == 0 then 0 else Pow2(weight - 1)
  }

  function WeightSum(weights: seq<u8>): nat
  {
    if weights == [] then 0 else WeightSum(weights[..|weights| - 1]) + WeightShare(weights[|weights| - 1])
  }

  predicate PowerOfTwo(n: nat)
  {
    n > 0 && n == Pow2(Log2(n))
  }

  /** Table width: one more bit than the highest bit of the sum. */
  function TableBits(sum: nat): (bits: nat)
    requires sum > 0
    ensures bits > 0 && Pow2(bits - 1) <= sum < Pow2(bits)
  {
    Log2(sum) + 1
  }

  /** The weight lists that describe a code. The last symbol's weight is implied. */
  predicate Acceptable(weights: seq<u8>)
  {
    && 0 < |weights| < 256
    && (forall i :: 0 <= i < |weights| ==> weights[i] <= MAX_BITS)
    && WeightSum(weights) > 0
    && TableBits(WeightSum(weights)) <= MAX_BITS
    && PowerOfTwo(Pow2(TableBits(WeightSum(weights))) - WeightSum(weights))
  }

  function ImpliedWeight(weights: seq<u8>): (weight: nat)
    requires Acceptable(weights)
  {
    Log2(Pow2(TableBits(WeightSum(weights))) - WeightSum(weights)) + 1
  }

  function LengthOf(weight: nat, tableBits: nat): (length: nat)
    requires weight <= tableBits
    ensures length <= tableBits
  {
    if weight == 0 then 0 else tableBits + 1 - weight
  }

  lemma {:induction false} ShareBelowSum(weights: seq<u8>, i: nat)
    requires i < |weights|
    ensures WeightShare(weights[i]) <= WeightSum(weights)
  {
    if i < |weights| - 1 {
      ShareBelowSum(weights[..|weights| - 1], i);
    }
  }

  lemma WeightFits(weights: seq<u8>, i: nat)
    requires WeightSum(weights) > 0 && i < |weights|
    ensures weights[i] <= TableBits(WeightSum(weights))
  {
    var bits := TableBits(WeightSum(weights));
    ShareBelowSum(weights, i);
    if weights[i] > bits { Pow2Monotone(bits, weights[i] - 1); }
  }

  lemma ImpliedFits(weights: seq<u8>)
    requires Acceptable(weights)
    ensures 0 < ImpliedWeight(weights) <= TableBits(WeightSum(weights))
    ensures WeightShare(ImpliedWeight(weights)) == Pow2(TableBits(WeightSum(weights))) - WeightSum(weights)
  {
    hide WeightSum, Pow2, Log2;
    var bits := TableBits(WeightSum(weights));
    if ImpliedWeight(weights) > bits { Pow2Monotone(bits, ImpliedWeight(weights) - 1); }
  }

  lemma WeightsFit(weights: seq<u8>)
    requires Acceptable(weights)
    ensures forall i :: 0 <= i < |weights| ==> weights[i] <= TableBits(WeightSum(weights))
    ensures 0 < ImpliedWeight(weights) <= TableBits(WeightSum(weights))
    ensures WeightShare(ImpliedWeight(weights)) == Pow2(TableBits(WeightSum(weights))) - WeightSum(weights)
  {
    hide WeightSum, TableBits, ImpliedWeight, WeightShare, PowerOfTwo;
    ImpliedFits(weights);
    forall i | 0 <= i < |weights| ensures weights[i] <= TableBits(WeightSum(weights)) {
      WeightFits(weights, i);
    }
  }

  /** The code lengths; 0 for a symbol without a code. */
  function Lengths(weights: seq<u8>): (lengths: seq<nat>)
    requires Acceptable(weights)
    ensures |lengths| == |weights| + 1
  {
    WeightsFit(weights);
    var bits := TableBits(WeightSum(weights));
    seq(|weights|, i requires 0 <= i < |weights| => LengthOf(weights[i], bits))
        + [LengthOf(ImpliedWeight(weights), bits)]
  }

  // ----- slots

  /** Slots of a code word of the given length. */
  function Width(tableBits: nat, length: nat): (width: nat)
    requires length <= tableBits
    ensures width > 0
  {
    Pow2(tableBits - length)
  }

  /** The slots of all codes longer than `length`: they come first in the table. */
  function RankStart(lengths: seq<nat>, tableBits: nat, length: nat): nat
  {
    if lengths == [] then 0
    else
      var n := |lengths| - 1;
      RankStart(lengths[..n], tableBits, length)
      + if length < lengths[n] <= tableBits then Width(tableBits, lengths[n]) else 0
  }

  /** A code whose words exactly fill the table: the Kraft sum is full. */
  ghost predicate Complete(lengths: seq<nat>, tableBits: nat)
  {
    && 1 <= tableBits <= MAX_BITS
    && |lengths| <= 256
    && (forall i :: 0 <= i < |lengths| ==> lengths[i] <= tableBits)
    && RankStart(lengths, tableBits, 0) == Pow2(tableBits)
  }

  lemma {:induction false} SharesAreWidths(weights: seq<u8>, lengths: seq<nat>, tableBits: nat)
    requires |lengths| == |weights|
    requires forall i :: 0 <= i < |weights| ==> weights[i] <= tableBits && lengths[i] == LengthOf(weights[i], tableBits)
    ensures RankStart(lengths, tableBits, 0) == WeightSum(weights)
  {
    if weights != [] {
      var n := |weights| - 1;
      SharesAreWidths(weights[..n], lengths[..n], tableBits);
    }
  }

  /** Every acceptable weight list gives a complete code: the construction's own checks are dead. */
  lemma AcceptableIsComplete(weights: seq<u8>)
    requires Acceptable(weights)
    ensures Complete(Lengths(weights), TableBits(WeightSum(weights)))
  {
    hide WeightSum, Pow2, Log2, PowerOfTwo, ImpliedWeight;
    var bits := TableBits(WeightSum(weights));
    var lengths := Lengths(weights);
    WeightsFit(weights);
    SharesAreWidths(weights, lengths[..|weights|], bits);
  }

  lemma {:induction false} RankStartMonotone(lengths: seq<nat>, tableBits: nat, short: nat, long: nat)
    requires short <= long
    ensures RankStart(lengths, tableBits, long) <= RankStart(lengths, tableBits, short)
  {
    hide Width;
    if lengths != [] {
      RankStartMonotone(lengths[..|lengths| - 1], tableBits, short, long);
    }
  }

  lemma {:induction false} NothingLonger(lengths: seq<nat>, tableBits: nat)
    ensures RankStart(lengths, tableBits, tableBits) == 0
  {
    if lengths != [] {
      NothingLonger(lengths[..|lengths| - 1], tableBits);
    }
  }

  /** What the rank loop adds up: one rank more is that rank's count times its width. */
  lemma {:induction false} RankStep(lengths: seq<nat>, tableBits: nat, length: nat)
    requires 0 < length <= tableBits
    ensures RankStart(lengths, tableBits, length - 1)
         == RankStart(lengths, tableBits, length) + CountOf(lengths, length) * Width(tableBits, length)
  {
    hide Width;
    if lengths != [] {
      var n := |lengths| - 1;
      RankStep(lengths[..n], tableBits, length);
      if lengths[n] == length {
        MulDistributive(Width(tableBits, length), CountOf(lengths[..n], length), 1);
      }
    }
  }

  /** First slot of symbol i: after every longer code, and after earlier symbols of its own length. */
  function Start(lengths: seq<nat>, tableBits: nat, i: nat): nat
    requires i < |lengths| && lengths[i] <= tableBits
  {
    RankStart(lengths, tableBits, lengths[i]) + CountOf(lengths[..i], lengths[i]) * Width(tableBits, lengths[i])
  }

  ghost predicate Coded(lengths: seq<nat>, i: nat)
  {
    i < |lengths| && lengths[i] > 0
  }

  ghost predicate Owns(lengths: seq<nat>, tableBits: nat, i: nat, slot: nat)
    requires Complete(lengths, tableBits)
  {
    Coded(lengths, i)
    && Start(lengths, tableBits, i) <= slot < Start(lengths, tableBits, i) + Width(tableBits, lengths[i])
  }

  /** A symbol's run ends before the next shorter length begins. */
  lemma RunEnd(lengths: seq<nat>, tableBits: nat, i: nat)
    requires Complete(lengths, tableBits) && Coded(lengths, i)
    ensures Start(lengths, tableBits, i) + Width(tableBits, lengths[i]) <= RankStart(lengths, tableBits, lengths[i] - 1)
  {
    hide RankStart, Width, CountOf;
    var length := lengths[i];
    RankStep(lengths, tableBits, length);
    CountOfPrefix(lengths, i, |lengths|, length);
    assert lengths[..|lengths|] == lengths;
    MulMonotone(CountOf(lengths[..i], length) + 1, CountOf(lengths, length), Width(tableBits, length));
    MulDistributive(Width(tableBits, length), CountOf(lengths[..i], length), 1);
  }

  lemma RunInside(lengths: seq<nat>, tableBits: nat, i: nat)
    requires Complete(lengths, tableBits) && Coded(lengths, i)
    ensures Start(lengths, tableBits, i) + Width(tableBits, lengths[i]) <= Pow2(tableBits)
  {
    hide RankStart, Width, Start, Pow2;
    RunEnd(lengths, tableBits, i);
    RankStartMonotone(lengths, tableBits, 0, lengths[i] - 1);
  }

  /** The canonical order: longer codes first, and equal lengths in symbol order. */
  ghost predicate Precedes(lengths: seq<nat>, i: nat, j: nat)
    requires i < |lengths| && j < |lengths|
  {
    lengths[i] > lengths[j] || (lengths[i] == lengths[j] && i < j)
  }

  lemma CanonicalOrder(lengths: seq<nat>, tableBits: nat, i: nat, j: nat)
    requires Complete(lengths, tableBits) && Coded(lengths, i) && Coded(lengths, j) && Precedes(lengths, i, j)
    ensures Start(lengths, tableBits, i) + Width(tableBits, lengths[i]) <= Start(lengths, tableBits, j)
  {
    hide RankStart, Width, CountOf, Pow2;
    if lengths[i] > lengths[j] {
      RunEnd(lengths, tableBits, i);
      RankStartMonotone(lengths, tableBits, lengths[j], lengths[i] - 1);
      MulMonotone(0, CountOf(lengths[..j], lengths[j]), Width(tableBits, lengths[j]));
    } else {
      CountOfPrefix(lengths, i, j, lengths[i]);
      MulMonotone(CountOf(lengths[..i], lengths[i]) + 1, CountOf(lengths[..j], lengths[i]),
          Width(tableBits, lengths[i]));
      MulDistributive(Width(tableBits, lengths[i]), CountOf(lengths[..i], lengths[i]), 1);
    }
  }

  /** No slot has two owners. */
  lemma OwnerUnique(lengths: seq<nat>, tableBits: nat, i: nat, j: nat, slot: nat)
    requires Complete(lengths, tableBits)
    requires Owns(lengths, tableBits, i, slot) && Owns(lengths, tableBits, j, slot)
    ensures i == j
  {
    hide Start, Width, RankStart, Pow2;
    if i != j {
      if Precedes(lengths, i, j) {
        CanonicalOrder(lengths, tableBits, i, j);
      } else {
        CanonicalOrder(lengths, tableBits, j, i);
      }
    }
  }

  /** The length whose rank holds the slot. */
  lemma {:induction false} RankOf(lengths: seq<nat>, tableBits: nat, slot: nat, from: nat) returns (length: nat)
    requires from <= tableBits && slot < RankStart(lengths, tableBits, from)
    ensures from < length <= tableBits
    ensures RankStart(lengths, tableBits, length) <= slot < RankStart(lengths, tableBits, length - 1)
    decreases tableBits - from
  {
    hide RankStart;
    if from == tableBits {
      NothingLonger(lengths, tableBits);
    }
    length := from + 1;
    if slot < RankStart(lengths, tableBits, from + 1) {
      length := RankOf(lengths, tableBits, slot, from + 1);
    }
  }

  /** Every slot has an owner. */
  lemma OwnerExists(lengths: seq<nat>, tableBits: nat, slot: nat) returns (i: nat)
    requires Complete(lengths, tableBits) && slot < Pow2(tableBits)
    ensures Owns(lengths, tableBits, i, slot)
  {
    hide RankStart, Width, CountOf, Pow2;
    var length := RankOf(lengths, tableBits, slot, 0);
    var first, width := RankStart(lengths, tableBits, length), Width(tableBits, length);
    RankStep(lengths, tableBits, length);
    var m := (slot - first) / width;
    DivMod(slot - first, width);
    if CountOf(lengths, length) <= m {
      MulMonotone(CountOf(lengths, length), m, width);
    }
    i := NthOccurrence(lengths, length, m);
  }

  ghost function Owner(lengths: seq<nat>, tableBits: nat, slot: nat): (i: nat)
    requires Complete(lengths, tableBits) && slot < Pow2(tableBits)
    ensures Owns(lengths, tableBits, i, slot)
  {
    assert exists i: nat :: Owns(lengths, tableBits, i, slot) by {
      var i := OwnerExists(lengths, tableBits, slot);
    }
    var i: nat :| Owns(lengths, tableBits, i, slot);
    i
  }

  // ----- alignment and code words

  /** The slots of the codes of at most `length` bits. */
  function Shorter(lengths: seq<nat>, tableBits: nat, length: nat): nat
  {
    if lengths == [] then 0
    else
      var n := |lengths| - 1;
      Shorter(lengths[..n], tableBits, length)
      + if 0 < lengths[n] <= length && lengths[n] <= tableBits then Width(tableBits, lengths[n]) else 0
  }

  lemma {:induction false} LongerPlusShorter(lengths: seq<nat>, tableBits: nat, length: nat)
    requires length <= tableBits
    ensures RankStart(lengths, tableBits, length) + Shorter(lengths, tableBits, length)
        == RankStart(lengths, tableBits, 0)
  {
    hide Width;
    if lengths != [] {
      LongerPlusShorter(lengths[..|lengths| - 1], tableBits, length);
    }
  }

  lemma {:induction false} ShorterAligned(lengths: seq<nat>, tableBits: nat, length: nat) returns (k: nat)
    requires length <= tableBits
    ensures Shorter(lengths, tableBits, length) == k * Pow2(tableBits - length)
  {
    hide Pow2;
    if lengths == [] {
      k := 0;
    } else {
      var n := |lengths| - 1;
      k := ShorterAligned(lengths[..n], tableBits, length);
      if 0 < lengths[n] <= length {
        Pow2Add(length - lengths[n], tableBits - length);
        MulDistributive(Pow2(tableBits - length), k, Pow2(length - lengths[n]));
        k := k + Pow2(length - lengths[n]);
      }
    }
  }

  /** Every run starts at a multiple of its width: a run is the set of slots that extend one code word. */
  lemma RunAligned(lengths: seq<nat>, tableBits: nat, i: nat) returns (code: nat)
    requires Complete(lengths, tableBits) && Coded(lengths, i)
    ensures Start(lengths, tableBits, i) == code * Width(tableBits, lengths[i]) && code < Pow2(lengths[i])
  {
    hide RankStart, Shorter, Pow2, CountOf;
    var length := lengths[i];
    var p := Pow2(tableBits - length);
    LongerPlusShorter(lengths, tableBits, length);
    var k := ShorterAligned(lengths, tableBits, length);
    Pow2Add(length, tableBits - length);
    var c := CountOf(lengths[..i], length);
    MulDistributive(p, Pow2(length) - k, k);
    MulDistributive(p, Pow2(length) - k, c);
    RunInside(lengths, tableBits, i);
    QuotientBounds(Pow2(length) - k + c, p, Pow2(length));
    code := Pow2(length) - k + c;
  }

  lemma QuotientBounds(q: int, p: nat, bound: nat)
    requires p > 0 && 0 <= q * p && q * p + p <= bound * p
    ensures 0 <= q < bound
  {
    SignOfFactor(q, p);
    if bound <= q { MulMonotone(bound, q, p); }
  }

  /** The code word of a symbol as a number: its run divided by its width. */
  ghost function CodeValue(lengths: seq<nat>, tableBits: nat, i: nat): (code: nat)
    requires Complete(lengths, tableBits) && Coded(lengths, i)
    ensures Start(lengths, tableBits, i) == code * Width(tableBits, lengths[i]) && code < Pow2(lengths[i])
  {
    CodeIsQuotient(lengths, tableBits, i);
    Start(lengths, tableBits, i) / Width(tableBits, lengths[i])
  }

  lemma CodeIsQuotient(lengths: seq<nat>, tableBits: nat, i: nat)
    requires Complete(lengths, tableBits) && Coded(lengths, i)
    ensures
      var width := Width(tableBits, lengths[i]);
      var code := Start(lengths, tableBits, i) / width;
      0 <= code < Pow2(lengths[i]) && Start(lengths, tableBits, i) == code * width
  {
    hide RankStart, CountOf, Start, Width, Pow2;
    var code := RunAligned(lengths, tableBits, i);
    DivModUnique(Start(lengths, tableBits, i), Width(tableBits, lengths[i]), code, 0);
  }

  /** The slots of a symbol are those whose leading bits are its code word. */
  lemma OwnsByPrefix(lengths: seq<nat>, tableBits: nat, i: nat, slot: nat)
    requires Complete(lengths, tableBits) && Coded(lengths, i)
    ensures Owns(lengths, tableBits, i, slot)
        <==> slot / Width(tableBits, lengths[i]) == CodeValue(lengths, tableBits, i)
  {
    hide RankStart, CountOf, Start, Width, Pow2, CodeValue;
    var width, code := Width(tableBits, lengths[i]), CodeValue(lengths, tableBits, i);
    DivMod(slot, width);
    if Owns(lengths, tableBits, i, slot) {
      DivModUnique(slot, width, code, slot - code * width);
    }
  }

  ghost function Word(lengths: seq<nat>, tableBits: nat, i: nat): (word: seq<bit>)
    requires Complete(lengths, tableBits) && Coded(lengths, i)
    ensures |word| == lengths[i] && Msb(word) == CodeValue(lengths, tableBits, i)
  {
    MsbDigits(CodeValue(lengths, tableBits, i), lengths[i])
  }

  // ----- decoding inverts encoding

  ghost predicate AllCoded(lengths: seq<nat>, symbols: seq<u8>)
  {
    forall k :: 0 <= k < |symbols| ==> Coded(lengths, symbols[k])
  }

  /** The concatenated code words. */
  ghost function Spell(lengths: seq<nat>, tableBits: nat, symbols: seq<u8>): seq<bit>
    requires Complete(lengths, tableBits) && AllCoded(lengths, symbols)
  {
    if symbols == [] then [] else Word(lengths, tableBits, symbols[0]) + Spell(lengths, tableBits, symbols[1..])
  }

  /** Decodes n symbols that must use up the bits exactly. */
  ghost function Decode(lengths: seq<nat>, tableBits: nat, s: seq<bit>, n: nat): (r: Result<seq<u8>, DecodeError>)
    requires Complete(lengths, tableBits)
  {
    if n == 0 then
      if s == [] then Ok([]) else Err(InvalidBitstream)
    else
      var symbol := Owner(lengths, tableBits, Peek(s, tableBits));
      if lengths[symbol] > |s| then Err(InvalidBitstream)
      else
        var rest :- Decode(lengths, tableBits, s[lengths[symbol]..], n - 1);
        Ok([symbol] + rest)
  }

  /** The padding of a peek does not reach the bits that are there. */
  lemma PeekPrefix(s: seq<bit>, width: nat, length: nat)
    requires length <= width && length <= |s|
    ensures Peek(s, width) / Pow2(width - length) == Msb(s[..length])
  {
    hide Pow2, Msb;
    var available := Min(width, |s|);
    var head, middle := s[..length], s[length..available];
    assert s[..available] == head + middle;
    MsbSplit(head, middle);
    Pow2Add(available - length, width - available);
    PaddedFits(Msb(middle), available - length, width - available);
    var p := Pow2(width - available);
    MulDistributive(p, Msb(head) * Pow2(available - length), Msb(middle));
    MulAssociative(Msb(head), Pow2(available - length), p);
    DivModUnique(Peek(s, width), Pow2(width - length), Msb(head), Msb(middle) * p);
  }

  /** The owner of a peeked slot is the symbol whose word comes next. */
  lemma OwnerIsNext(lengths: seq<nat>, tableBits: nat, s: seq<bit>, i: nat)
    requires Complete(lengths, tableBits) && Coded(lengths, i)
    requires lengths[i] <= |s|
    ensures Owner(lengths, tableBits, Peek(s, tableBits)) == i <==> s[..lengths[i]] == Word(lengths, tableBits, i)
  {
    hide RankStart, CountOf, Start, Pow2, CodeValue, Peek, Msb, Word, Owner, Owns;
    var slot := Peek(s, tableBits);
    PeekPrefix(s, tableBits, lengths[i]);
    OwnsByPrefix(lengths, tableBits, i, slot);
    if Owns(lengths, tableBits, i, slot) {
      OwnerUnique(lengths, tableBits, i, Owner(lengths, tableBits, slot), slot);
      MsbInjective(s[..lengths[i]], Word(lengths, tableBits, i));
    }
  }

  /** Strict decoding succeeds with `symbols` exactly when the bits are their code words, one after the other. */
  lemma {:induction false} DecodeInvertsSpell(lengths: seq<nat>, tableBits: nat, s: seq<bit>, symbols: seq<u8>)
    requires Complete(lengths, tableBits)
    ensures Decode(lengths, tableBits, s, |symbols|) == Ok(symbols)
       <==> AllCoded(lengths, symbols) && s == Spell(lengths, tableBits, symbols)
    decreases |symbols|
  {
    hide Owner, Peek, Word, RankStart, Pow2, Msb;
    if symbols != [] {
      var first, later := symbols[0], symbols[1..];
      var next := Owner(lengths, tableBits, Peek(s, tableBits));
      assert symbols == [first] + later;
      if lengths[next] <= |s| {
        DecodeInvertsSpell(lengths, tableBits, s[lengths[next]..], later);
        OwnerIsNext(lengths, tableBits, s, next);
        assert s == s[..lengths[next]] + s[lengths[next]..];
      }
      if AllCoded(lengths, symbols) && s == Spell(lengths, tableBits, symbols) {
        assert Coded(lengths, first);
        assert s[..lengths[first]] == Word(lengths, tableBits, first);
        OwnerIsNext(lengths, tableBits, s, first);
        assert s[lengths[first]..] == Spell(lengths, tableBits, later);
      }
    }
  }

  /** The only way to fail is a bit string that is not a sequence of code words. */
  lemma {:induction false} DecodeFailure(lengths: seq<nat>, tableBits: nat, s: seq<bit>, n: nat)
    requires Complete(lengths, tableBits)
    ensures Decode(lengths, tableBits, s, n).Err? ==> Decode(lengths, tableBits, s, n).error == InvalidBitstream
    ensures Decode(lengths, tableBits, s, n).Ok? ==> |Decode(lengths, tableBits, s, n).value| == n
    decreases n
  {
    hide Owner, Peek, RankStart, Pow2;
    if n > 0 {
      var next := Owner(lengths, tableBits, Peek(s, tableBits));
      if lengths[next] <= |s| {
        DecodeFailure(lengths, tableBits, s[lengths[next]..], n - 1);
      }
    }
  }
}
