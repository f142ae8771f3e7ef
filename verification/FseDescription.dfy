/** The FSE table description (zstd-zero/src/fse.rs lines 189-255, RFC 8878
    section 4.1.1): a truncated binary code for each probability, with runs of
    zeros abbreviated. The reader is proved against a parser on bit strings, and
    the parser against a writer: reading inverts writing. */
module FseDescription {
  import opened Numbers
  import opened Results
  import opened ZstdErrors
  import opened ZstdBits
  import opened FseSpread
  import opened FseTableSpec
  import opened FseTable

  // ----- the code of one probability

  /** Width of a full code for the values 0..=last. */
  function Width(last: nat): (w: nat)
    requires last > 0
    ensures w > 0 && Pow2(w - 1) <= last < Pow2(w)
  {
    Log2(last) + 1
  }

  /** Values below the threshold are one bit shorter. */
  function Threshold(last: nat): (t: nat)
    requires last > 0
    ensures t + last + 1 == Pow2(Width(last)) && t < Pow2(Width(last) - 1)
  {
    Pow2(Width(last)) - 1 - last
  }

  /** Reads a full code and gives one bit back if a short one was enough. */
  function ReadCode(s: seq<bit>, last: nat): (r: Result<(nat, seq<bit>), DecodeError>)
    requires last > 0
    ensures r.Ok? ==> |r.value.1| < |s| || last == 1
  {
    var width := Width(last);
    var unchecked :- LowBits(s, width);
    var half := Pow2(width - 1);
    if unchecked % half < Threshold(last) then Ok((unchecked % half, s[width - 1..]))
    else if unchecked >= half then Ok((unchecked - Threshold(last), s[width..]))
    else Ok((unchecked, s[width..]))
  }

  function WriteCode(value: nat, last: nat): (s: seq<bit>)
    requires last > 0 && value <= last
  {
    var width := Width(last);
    if value < Threshold(last) then LsbDigits(value, width - 1)
    else if value < Pow2(width - 1) then LsbDigits(value, width)
    else LsbDigits(value + Threshold(last), width)
  }

  /** A code of full width: its low bits, and its top bit. */
  lemma CodeParts(code: seq<bit>, w: nat)
    requires |code| == w + 1
    ensures Lsb(code) % Pow2(w) == Lsb(code[..w]) < Pow2(w)
    ensures Lsb(code) == Lsb(code[..w]) + if code[w] == 1 then Pow2(w) else 0
  {
    hide *;
    assert code == code[..w] + [code[w]];
    LsbSplit(code[..w], [code[w]]);
    LsbOne(code[w]);
    TopBit(Lsb(code[..w]), Pow2(w), code[w]);
  }

  lemma LsbOne(b: bit)
    ensures Lsb([b]) == b
  {
  }

  lemma TopBit(low: nat, p: nat, top: bit)
    requires low < p
    ensures low + p * top == low + if top == 1 then p else 0
    ensures (low + p * top) % p == low
  {
    DivModUnique(low + p * top, p, top, low);
  }

  lemma FullWidth(last: nat)
    requires 0 < last < 0x1_0000_0000
    ensures Width(last) <= 32
    ensures Pow2(Width(last)) == 2 * Pow2(Width(last) - 1)
  {
    Pow2Values();
    if Log2(last) >= 32 { Pow2Monotone(32, Log2(last)); }
  }

  /** Whatever the bits are, the value read is in range and the bits consumed are its code. */
  lemma CodeSound(s: seq<bit>, last: nat)
    requires 0 < last < 0x1_0000_0000 && ReadCode(s, last).Ok?
    ensures ReadCode(s, last).value.0 <= last
    ensures s == WriteCode(ReadCode(s, last).value.0, last) + ReadCode(s, last).value.1
  {
    hide Pow2, Lsb, Width, Threshold;
    var w := Width(last) - 1;
    CodeParts(s[..w + 1], w);
    assert s[..w + 1][..w] == s[..w];
    if Lsb(s[..w]) < Threshold(last) {
      assert s == s[..w] + s[w..];
      LsbInjective(s[..w], LsbDigits(Lsb(s[..w]), w));
    } else {
      FullWidth(last);
      LongCodeSound(s, last);
    }
  }

  lemma LongCodeSound(s: seq<bit>, last: nat)
    requires 0 < last < 0x1_0000_0000 && ReadCode(s, last).Ok?
    requires Threshold(last) <= Lsb(s[..Width(last) - 1])
    ensures ReadCode(s, last).value.0 <= last
    ensures s == WriteCode(ReadCode(s, last).value.0, last) + ReadCode(s, last).value.1
  {
    hide Pow2, Lsb, Width, Threshold;
    var w := Width(last) - 1;
    var code := s[..w + 1];
    CodeParts(code, w);
    FullWidth(last);
    assert code[..w] == s[..w];
    assert s == code + s[w + 1..];
    LsbInjective(code, LsbDigits(Lsb(code), w + 1));
  }

  /** Every value in range has a code, and reading finds it again; a short code needs one more bit behind it. */
  lemma CodeComplete(value: nat, last: nat, tail: seq<bit>)
    requires 0 < last < 0x1_0000_0000 && value <= last
    ensures ReadCode(WriteCode(value, last) + tail, last) ==
            if value < Threshold(last) && tail == [] then Err(InvalidBitstream) else Ok((value, tail))
  {
    FullWidth(last);
    if value < Threshold(last) {
      if tail != [] { ShortCode(value, last, tail); }
    } else {
      LongCode(value, last, tail);
    }
  }

  lemma ShortCode(value: nat, last: nat, tail: seq<bit>)
    requires 0 < last < 0x1_0000_0000 && value < Threshold(last) && tail != []
    ensures ReadCode(WriteCode(value, last) + tail, last) == Ok((value, tail))
  {
    hide Pow2, Lsb, Width, Threshold;
    var w := Width(last) - 1;
    var s := WriteCode(value, last) + tail;
    FullWidth(last);
    CodeParts(s[..w + 1], w);
    assert s[..w + 1][..w] == WriteCode(value, last);
    assert s[w..] == tail;
  }

  lemma LongCode(value: nat, last: nat, tail: seq<bit>)
    requires 0 < last < 0x1_0000_0000 && Threshold(last) <= value <= last
    ensures ReadCode(WriteCode(value, last) + tail, last) == Ok((value, tail))
  {
    hide Pow2, Lsb, Width, Threshold;
    var w := Width(last) - 1;
    var code := WriteCode(value, last);
    var s := code + tail;
    FullWidth(last);
    CodeParts(code, w);
    assert s[..w + 1] == code && s[w + 1..] == tail;
  }

  // ----- a whole distribution

  /** Repeat flags after a zero probability: each flag adds 0 to 3 zeros, and only a 3 is followed by another flag. */
  function ReadRun(s: seq<bit>, symbols: nat, limit: nat): (r: Result<(nat, seq<bit>), DecodeError>)
    ensures r.Ok? ==> symbols <= r.value.0 <= limit
    decreases |s|
  {
    var zeros :- LowBits(s, 2);
    if symbols + zeros > limit then Err(InvalidEntropyTable)
    else if zeros != 3 then Ok((symbols + zeros, s[2..]))
    else ReadRun(s[2..], symbols + zeros, limit)
  }

  lemma RunBounds(s: seq<bit>, symbols: nat, limit: nat)
    requires ReadRun(s, symbols, limit).Ok?
    ensures symbols <= ReadRun(s, symbols, limit).value.0 <= limit
  {
  }

  function WriteRun(zeros: nat): (s: seq<bit>)
    ensures s != []
  {
    Pow2Values();
    if zeros < 3 then LsbDigits(zeros, 2) else LsbDigits(3, 2) + WriteRun(zeros - 3)
  }

  lemma {:induction false} RunRoundTrip(zeros: nat, tail: seq<bit>, symbols: nat, limit: nat)
    requires symbols + zeros <= limit
    ensures ReadRun(WriteRun(zeros) + tail, symbols, limit) == Ok((symbols + zeros, tail))
    decreases zeros
  {
    hide Pow2;
    Pow2Values();
    var s := WriteRun(zeros) + tail;
    var flag := LsbDigits(Min(zeros, 3), 2);
    assert s[..2] == flag;
    if zeros < 3 {
      assert s[2..] == tail;
    } else {
      assert s[2..] == WriteRun(zeros - 3) + tail;
      RunRoundTrip(zeros - 3, tail, symbols + 3, limit);
    }
  }

  function Zeros(n: nat): (s: seq<i16>)
    ensures |s| == n && forall i :: 0 <= i < n ==> s[i] == 0
  {
    seq(n, _ => 0)
  }

  lemma {:induction false} TotalOfZeros(ps: seq<i16>, n: nat)
    ensures Total(ps + Zeros(n)) == Total(ps)
  {
    if n == 0 {
      assert ps + Zeros(0) == ps;
    } else {
      assert (ps + Zeros(n))[..|ps| + n - 1] == ps + Zeros(n - 1);
      TotalOfZeros(ps, n - 1);
    }
  }

  datatype Progress = Progress(left: nat, ps: seq<i16>, rest: seq<bit>)

  /** Reads one probability, and the zeros that follow it if it is zero. */
  function ReadOne(s: seq<bit>, left: nat, ps: seq<i16>, maxSymbol: nat): (r: Result<Progress, DecodeError>)
    requires 0 < left <= 512 && |ps| <= maxSymbol
    ensures r.Ok? ==> r.value.left <= left && |ps| < |r.value.ps| <= maxSymbol + 1
  {
    var code :- ReadCode(s, left + 1);
    CodeSound(s, left + 1);
    var probability: i16 := code.0 as int - 1;
    if probability == 0 then
      var run :- ReadRun(code.1, |ps| + 1, maxSymbol + 1);
      Ok(Progress(left, ps + [0] + Zeros(run.0 - |ps| - 1), run.1))
    else
      Ok(Progress(left - Norm(probability), ps + [probability], code.1))
  }

  /** Reads probabilities until `left` slots are used up; `ps` holds those read so far. */
  function ReadCounts(s: seq<bit>, left: nat, ps: seq<i16>, maxSymbol: nat)
    : (r: Result<(seq<i16>, seq<bit>), DecodeError>)
    requires left <= 512
    decreases maxSymbol + 1 - |ps|
  {
    if left == 0 then Ok((ps, s))
    else if |ps| > maxSymbol then Err(InvalidEntropyTable)
    else
      var next :- ReadOne(s, left, ps, maxSymbol);
      ReadCounts(next.rest, next.left, next.ps, maxSymbol)
  }

  lemma TotalAppend(ps: seq<i16>, p: i16)
    ensures Total(ps + [p]) == Total(ps) + Norm(p)
  {
    assert (ps + [p])[..|ps|] == ps;
  }

  /** The slots used never exceed the table, and when the reader stops they are exactly the table. */
  lemma {:induction false} CountsSum(s: seq<bit>, left: nat, ps: seq<i16>, maxSymbol: nat)
    requires left <= 512 && |ps| <= maxSymbol + 1 && ReadCounts(s, left, ps, maxSymbol).Ok?
    ensures
      var all := ReadCounts(s, left, ps, maxSymbol).value.0;
      |all| <= maxSymbol + 1 && Total(all) == Total(ps) + left && (left > 0 ==> |all| > |ps|)
    decreases maxSymbol + 1 - |ps|
  {
    hide ReadOne, Total;
    if left > 0 {
      OneCountSum(s, left, ps, maxSymbol);
      var next := ReadOne(s, left, ps, maxSymbol).value;
      CountsSum(next.rest, next.left, next.ps, maxSymbol);
    }
  }

  lemma OneCountSum(s: seq<bit>, left: nat, ps: seq<i16>, maxSymbol: nat)
    requires 0 < left <= 512 && |ps| <= maxSymbol && ReadOne(s, left, ps, maxSymbol).Ok?
    ensures
      var next := ReadOne(s, left, ps, maxSymbol).value;
      Total(next.ps) + next.left == Total(ps) + left
  {
    hide ReadCode, WriteCode, ReadRun, Total, Zeros;
    var code := ReadCode(s, left + 1).value;
    CodeSound(s, left + 1);
    var p: i16 := code.0 as int - 1;
    TotalAppend(ps, p);
    if p == 0 {
      var run := ReadRun(code.1, |ps| + 1, maxSymbol + 1).value;
      RunBounds(code.1, |ps| + 1, maxSymbol + 1);
      TotalOfZeros(ps + [0], run.0 - |ps| - 1);
    }
  }

  // ----- writing a distribution

  function LeadingZeros(ps: seq<i16>): (n: nat)
    ensures n <= |ps| && ps[..n] == Zeros(n) && (n < |ps| ==> ps[n] != 0)
  {
    if ps == [] || ps[0] != 0 then 0
    else
      assert ps == [ps[0]] + ps[1..];
      1 + LeadingZeros(ps[1..])
  }

  /** A distribution of `left` slots that does not end in a zero: what a description can spell. */
  ghost predicate Proper(ps: seq<i16>, left: nat)
  {
    && left <= 512
    && Total(ps) == left
    && (forall i :: 0 <= i < |ps| ==> ps[i] >= -1)
    && (|ps| > 0 ==> ps[|ps| - 1] != 0)
  }

  lemma {:induction false} TotalHead(ps: seq<i16>)
    requires ps != []
    ensures Total(ps) == Norm(ps[0]) + Total(ps[1..])
  {
    if |ps| == 1 {
      assert ps[..0] == [] && ps[1..] == [];
    } else {
      TotalHead(ps[..|ps| - 1]);
      assert ps[1..][..|ps| - 2] == ps[..|ps| - 1][1..];
    }
  }

  lemma {:induction false} TotalDropsZeros(ps: seq<i16>, n: nat)
    requires n <= |ps| && ps[..n] == Zeros(n)
    ensures Total(ps[n..]) == Total(ps)
  {
    if n == 0 {
      assert ps[0..] == ps;
    } else {
      assert ps[0] == ps[..n][0] == 0;
      TotalHead(ps);
      assert ps[1..][..n - 1] == ps[..n][1..] == Zeros(n)[1..] == Zeros(n - 1);
      TotalDropsZeros(ps[1..], n - 1);
      assert ps[1..][n - 1..] == ps[n..];
    }
  }

  /** What remains after the first probability, and after the zeros that follow a zero. */
  ghost function Rest(ps: seq<i16>): (rest: seq<i16>)
    requires ps != []
    ensures |rest| < |ps|
  {
    if ps[0] == 0 then ps[1 + LeadingZeros(ps[1..])..] else ps[1..]
  }

  lemma RestIsProper(ps: seq<i16>, left: nat)
    requires Proper(ps, left) && ps != []
    ensures -1 <= ps[0] <= left && Norm(ps[0]) <= left
    ensures Proper(Rest(ps), left - Norm(ps[0]))
    ensures ps[0] == 0 ==> Rest(ps) != []
    ensures Rest(ps) == [] ==> ps[0] == left || (ps[0] == -1 && left == 1)
    ensures Rest(ps) != [] ==> Rest(ps)[|Rest(ps)| - 1] == ps[|ps| - 1]
  {
    TotalHead(ps);
    if ps[0] == 0 {
      var n := LeadingZeros(ps[1..]);
      TotalDropsZeros(ps[1..], n);
      assert ps[1..][n..] == ps[1 + n..];
      assert forall i :: 0 <= i < n ==> ps[1 + i] == ps[1..][..n][i];
      assert n < |ps| - 1;
    }
  }

  ghost function WriteCounts(ps: seq<i16>, left: nat): (s: seq<bit>)
    requires Proper(ps, left)
    decreases |ps|
  {
    if ps == [] then []
    else
      RestIsProper(ps, left);
      WriteCode(ps[0] + 1, left + 1)
      + (if ps[0] == 0 then WriteRun(LeadingZeros(ps[1..])) else [])
      + WriteCounts(Rest(ps), left - Norm(ps[0]))
  }

  lemma CodeNonEmpty(value: nat, last: nat)
    requires 1 < last < 0x1_0000_0000 && value <= last
    ensures WriteCode(value, last) != []
  {
    Pow2Values();
    Log2Monotone(2, last);
    Log2Unique(2, 1);
  }

  /** Only a final "less than one" probability has a short code with nothing behind it. */
  lemma ShortLast(left: nat)
    requires 0 < left <= 512
    ensures Threshold(left + 1) <= left + 1
    ensures left == 1 ==> Threshold(left + 1) == 1
  {
    Pow2Values();
    if left == 1 { Log2Unique(2, 1); }
  }

  /** The last code is a short one, and not a bit is behind it. */
  predicate LacksBit(ps: seq<i16>, tail: seq<bit>)
  {
    ps != [] && ps[|ps| - 1] == -1 && tail == []
  }

  /** Reading inverts writing, for every distribution and whatever follows it, if and only if a distribution
      that ends in -1 has a bit behind it. */
  lemma {:induction false} CountsRoundTrip(ps: seq<i16>, left: nat, tail: seq<bit>, before: seq<i16>, maxSymbol: nat)
    requires Proper(ps, left) && |before| + |ps| <= maxSymbol + 1
    ensures ReadCounts(WriteCounts(ps, left) + tail, left, before, maxSymbol) ==
            if LacksBit(ps, tail) then Err(InvalidBitstream) else Ok((before + ps, tail))
    decreases |ps|
  {
    hide ReadOne, Total, Proper, WriteCounts;
    if ps == [] {
      WriteNothing(ps, left);
      assert before + ps == before && [] + tail == tail;
    } else {
      RestIsProper(ps, left);
      LeftPositive(ps, left);
      if Rest(ps) == [] && LacksBit(ps, tail) {
        LastLacksBit(ps, left, before, maxSymbol);
        assert WriteCounts(ps, left) + tail == WriteCounts(ps, left);
      } else {
        OneRoundTrip(ps, left, tail, before, maxSymbol);
        var n := |ps| - |Rest(ps)|;
        assert before + ps[..n] + Rest(ps) == before + ps;
        CountsRoundTrip(Rest(ps), left - Norm(ps[0]), tail, before + ps[..n], maxSymbol);
      }
    }
  }

  lemma LastLacksBit(ps: seq<i16>, left: nat, before: seq<i16>, maxSymbol: nat)
    requires Proper(ps, left) && LacksBit(ps, []) && Rest(ps) == [] && 0 < left <= 512 && |before| <= maxSymbol
    ensures ReadOne(WriteCounts(ps, left), left, before, maxSymbol) == Err(InvalidBitstream)
  {
    hide ReadCode, WriteCode, Threshold, Total;
    RestIsProper(ps, left);
    WriteNothing(Rest(ps), left - Norm(ps[0]));
    assert WriteCounts(ps, left) == WriteCode(0, 2) + [] + [];
    ShortLast(1);
    CodeComplete(0, 2, []);
    assert WriteCode(0, 2) + [] + [] == WriteCode(0, 2) + [];
  }

  lemma WriteNothing(ps: seq<i16>, left: nat)
    requires Proper(ps, left) && ps == []
    ensures left == 0 && WriteCounts(ps, left) == []
  {
  }

  lemma OneRoundTrip(ps: seq<i16>, left: nat, tail: seq<bit>, before: seq<i16>, maxSymbol: nat)
    requires Proper(ps, left) && ps != [] && 0 < left <= 512 && |before| + |ps| <= maxSymbol + 1
    requires Rest(ps) == [] ==> !LacksBit(ps, tail)
    requires -1 <= ps[0] <= left && Proper(Rest(ps), left - Norm(ps[0]))
    ensures ReadOne(WriteCounts(ps, left) + tail, left, before, maxSymbol)
         == Ok(Progress(left - Norm(ps[0]), before + ps[..|ps| - |Rest(ps)|],
             WriteCounts(Rest(ps), left - Norm(ps[0])) + tail))
    ensures ps[|ps| - |Rest(ps)|..] == Rest(ps)
  {
    hide ReadCode, WriteCode, ReadRun, WriteRun, Total, Proper, WriteCounts, Threshold, LacksBit, LeadingZeros, Behind,
        Pow2;
    StepHasTail(ps, left, tail);
    SpellFirst(ps, left, tail);
    var behind := Behind(ps, left, tail);
    var later := WriteCounts(Rest(ps), left - Norm(ps[0])) + tail;
    CodeComplete(ps[0] + 1, left + 1, behind);
    if ps[0] == 0 {
      RunRoundTrip(LeadingZeros(ps[1..]), later, |before| + 1, maxSymbol + 1);
      SplitRun(before, ps);
    } else {
      assert ps[..1] == [ps[0]];
    }
  }

  lemma SpellFirst(ps: seq<i16>, left: nat, tail: seq<bit>)
    requires Proper(ps, left) && ps != []
    requires -1 <= ps[0] <= left && Proper(Rest(ps), left - Norm(ps[0]))
    ensures WriteCounts(ps, left) + tail == WriteCode(ps[0] + 1, left + 1) + Behind(ps, left, tail)
    ensures
      var later := WriteCounts(Rest(ps), left - Norm(ps[0])) + tail;
      Behind(ps, left, tail) == if ps[0] == 0 then WriteRun(LeadingZeros(ps[1..])) + later else later
  {
    hide WriteCode, WriteRun, Total, Proper;
  }

  /** What follows the code of the first probability. */
  ghost function Behind(ps: seq<i16>, left: nat, tail: seq<bit>): seq<bit>
    requires Proper(ps, left) && ps != []
  {
    RestIsProper(ps, left);
    (if ps[0] == 0 then WriteRun(LeadingZeros(ps[1..])) else []) + (WriteCounts(Rest(ps), left - Norm(ps[0])) + tail)
  }

  lemma SplitRun(before: seq<i16>, ps: seq<i16>)
    requires ps != [] && ps[0] == 0
    ensures |Rest(ps)| + 1 + LeadingZeros(ps[1..]) == |ps|
    ensures ps[..1 + LeadingZeros(ps[1..])] == [0] + Zeros(LeadingZeros(ps[1..]))
    ensures before + [0] + Zeros(LeadingZeros(ps[1..])) == before + ps[..1 + LeadingZeros(ps[1..])]
  {
    var n := LeadingZeros(ps[1..]);
    assert ps[..1 + n] == [ps[0]] + ps[1..][..n];
  }

  lemma LeftPositive(ps: seq<i16>, left: nat)
    requires Proper(ps, left) && ps != []
    ensures 0 < left <= 512
  {
  }

  lemma StepHasTail(ps: seq<i16>, left: nat, tail: seq<bit>)
    requires Proper(ps, left) && ps != [] && 0 < left <= 512
    requires Rest(ps) == [] ==> !LacksBit(ps, tail)
    ensures -1 <= ps[0] <= left
    ensures ps[0] + 1 < Threshold(left + 1) ==> Behind(ps, left, tail) != []
  {
    RestIsProper(ps, left);
    ShortLast(left);
    if Rest(ps) != [] {
      var rest, after := Rest(ps), left - Norm(ps[0]);
      RestIsProper(rest, after);
      LeftPositive(rest, after);
      CodeNonEmpty(rest[0] + 1, after + 1);
    }
  }

  // ----- the description as a whole

  datatype Description = Description(probabilities: seq<i16>, log: nat, bits: nat)

  /** The distribution at the start of `input`, and the number of bits that spell it. */
  function DescriptionOf(input: seq<u8>, maxSymbol: nat, maxLog: nat): (r: Result<Description, DecodeError>)
  {
    if |input| == 0 || maxSymbol >= MAX_SYMBOLS then Err(InvalidEntropyTable)
    else
      var s := Upward(input, 0);
      var short :- LowBits(s, 4);
      var log := short + 5;
      if log > maxLog || log > MAX_TABLE_LOG then Err(InvalidEntropyTable)
      else
        LogFits(log);
        var counts :- ReadCounts(s[4..], Pow2(log), [], maxSymbol);
        if |counts.1| > |s| then Err(InvalidBitstream)
        else Ok(Description(counts.0, log, |s| - |counts.1|))
  }

  /** A description that reads completely always builds a table: the later checks are dead. */
  lemma DescriptionBuilds(input: seq<u8>, maxSymbol: nat, maxLog: nat)
    requires DescriptionOf(input, maxSymbol, maxLog).Ok?
    ensures
      var d := DescriptionOf(input, maxSymbol, maxLog).value;
      && 5 <= d.log <= maxLog && d.log <= MAX_TABLE_LOG && |d.probabilities| <= maxSymbol + 1
      && Buildable(d.probabilities, d.log)
      && Built(d.probabilities, d.log) == Some(TableView(Entries(d.probabilities, d.log), d.log))
  {
    hide Upward, ReadCounts, Lsb, Entries, Buildable, Pow2;
    var d := DescriptionOf(input, maxSymbol, maxLog).value;
    var s := Upward(input, 0);
    LogFits(d.log);
    CountsSum(s[4..], Pow2(d.log), [], maxSymbol);
    AlwaysBuildable(d.probabilities, d.log);
  }

  ghost function Describe(ps: seq<i16>, log: nat): (s: seq<bit>)
    requires 5 <= log <= MAX_TABLE_LOG && Proper(ps, Pow2(log))
  {
    assert Pow2(4) == 16 by { Pow2Values(); }
    LsbDigits(log - 5, 4) + WriteCounts(ps, Pow2(log))
  }

  /** Every distribution can be described, and reading its description builds exactly its table, if and only if
      a distribution that ends in -1 has a bit behind it; `tail` is whatever else the input holds. */
  lemma DescriptionRoundTrip(ps: seq<i16>, log: nat, input: seq<u8>, tail: seq<bit>, maxSymbol: nat, maxLog: nat)
    requires 5 <= log <= maxLog && log <= MAX_TABLE_LOG && |ps| <= maxSymbol + 1 && maxSymbol < MAX_SYMBOLS
    requires Proper(ps, Pow2(log))
    requires Upward(input, 0) == Describe(ps, log) + tail
    ensures DescriptionOf(input, maxSymbol, maxLog) ==
            if LacksBit(ps, tail) then Err(InvalidBitstream) else Ok(Description(ps, log, |Describe(ps, log)|))
    ensures Buildable(ps, log) && Built(ps, log) == Some(TableView(Entries(ps, log), log))
  {
    DescriptionReads(ps, log, input, tail, maxSymbol, maxLog);
    LogFits(log);
    AlwaysBuildable(ps, log);
  }

  lemma DescriptionReads(ps: seq<i16>, log: nat, input: seq<u8>, tail: seq<bit>, maxSymbol: nat, maxLog: nat)
    requires 5 <= log <= maxLog && log <= MAX_TABLE_LOG && |ps| <= maxSymbol + 1 && maxSymbol < MAX_SYMBOLS
    requires Proper(ps, Pow2(log))
    requires Upward(input, 0) == Describe(ps, log) + tail
    ensures DescriptionOf(input, maxSymbol, maxLog) ==
            if LacksBit(ps, tail) then Err(InvalidBitstream) else Ok(Description(ps, log, |Describe(ps, log)|))
  {
    hide Pow2, ReadCounts, WriteCounts, Proper, Upward, BitAt, Lsb, Total;
    LogFits(log);
    assert Pow2(4) == 16 by { Pow2Values(); }
    var s := Upward(input, 0);
    var written := WriteCounts(ps, Pow2(log));
    assert s[..4] == LsbDigits(log - 5, 4);
    assert s[4..] == written + tail;
    CountsRoundTrip(ps, Pow2(log), tail, [], maxSymbol);
    assert [] + ps == ps;
  }

  /** Two bytes that spell the distribution [-1, 30, -1] of 32 slots to their last bit: the reader rejects them. */
  lemma LackingExample()
    ensures
      var ps: seq<i16> := [-1, 30, -1];
      Pow2(5) == 32 && Proper(ps, 32) && Upward([0x00, 0x3e], 0) == Describe(ps, 5)
    ensures DescriptionOf([0x00, 0x3e], 35, 9) == Err(InvalidBitstream)
  {
    hide Upward, WriteCounts, DescriptionOf, Total;
    Pow2Values();
    var ps: seq<i16> := [-1, 30, -1];
    ExampleTotal();
    ExampleSpelled();
    ExampleBits();
    assert Describe(ps, 5) + [] == Describe(ps, 5);
    DescriptionRoundTrip(ps, 5, [0x00, 0x3e], [], 35, 9);
  }

  lemma ExampleTotal()
    ensures Proper([-1, 30, -1], 32) && Proper([30, -1], 31) && Proper([-1], 1) && Proper([], 0)
  {
    var a: seq<i16>, b: seq<i16>, c: seq<i16> := [-1, 30, -1], [30, -1], [-1];
    assert a[..2] == [-1, 30] && a[..2][..1] == [-1] && b[..1] == [30] && c[..0] == [] && b[..1][..0] == [];
  }

  lemma ExampleSpelled()
    requires Proper([-1, 30, -1], 32)
    ensures WriteCounts([-1, 30, -1], 32) == [0, 0, 0, 0, 0] + [1, 1, 1, 1, 1, 0] + [0]
  {
    hide WriteCode, Proper, LeadingZeros;
    ExampleTotal();
    ExampleCodes();
    var a: seq<i16>, b: seq<i16>, c: seq<i16> := [-1, 30, -1], [30, -1], [-1];
    assert a[1..] == b && b[1..] == c && c[1..] == [];
    assert WriteCounts([], 0) == [];
    assert WriteCounts(c, 1) == [0];
    assert WriteCounts(b, 31) == [1, 1, 1, 1, 1, 0] + [0];
  }

  lemma ExampleCodes()
    ensures WriteCode(0, 33) == [0, 0, 0, 0, 0]
    ensures WriteCode(31, 32) == [1, 1, 1, 1, 1, 0]
    ensures WriteCode(0, 2) == [0]
  {
    hide LsbDigits, Width, Pow2;
    Pow2Values();
    ExampleWidths();
    ExampleDigits();
  }

  lemma ExampleWidths()
    ensures Width(33) == 6 && Width(32) == 6 && Width(2) == 2
  {
    hide Log2, Pow2;
    Pow2Values();
    Log2Unique(33, 5);
    Log2Unique(32, 5);
    Log2Unique(2, 1);
  }

  lemma ExampleDigits()
    ensures LsbDigits(0, 1) == [0] && LsbDigits(0, 4) == [0, 0, 0, 0] && LsbDigits(0, 5) == [0, 0, 0, 0, 0]
    ensures LsbDigits(31, 6) == [1, 1, 1, 1, 1, 0]
  {
    hide Pow2;
    SmallPowers();
    assert LsbDigits(0, 2) == [0] + LsbDigits(0, 1);
    assert LsbDigits(0, 4) == [0] + ([0] + LsbDigits(0, 2));
    assert LsbDigits(0, 5) == [0] + LsbDigits(0, 4);
    assert LsbDigits(1, 2) == [1] + LsbDigits(0, 1);
    assert LsbDigits(7, 4) == [1] + ([1] + LsbDigits(1, 2));
    assert LsbDigits(31, 6) == [1] + ([1] + LsbDigits(7, 4));
  }

  lemma ExampleBits()
    ensures Upward([0x00, 0x3e], 0) == LsbDigits(0, 4) + ([0, 0, 0, 0, 0] + [1, 1, 1, 1, 1, 0] + [0])
  {
    hide Upward, LsbDigits;
    ExampleDigits();
    ExampleBytes();
  }

  lemma ExampleBytes()
    ensures Upward([0x00, 0x3e], 0) == [0, 0, 0, 0, 0, 0, 0, 0, 0, 1, 1, 1, 1, 1, 0, 0]
  {
    hide Pow2;
    SmallPowers();
  }

  // ----- the reader

  /** The variable-width code, with its one-bit rewind. */
  method TakeCode(bits: ForwardBits, remaining: nat) returns (r: Result<nat, DecodeError>)
    requires bits.Valid() && 0 < remaining < 0x1_0000_0000
    modifies bits
    ensures bits.Valid()
    ensures ReadCode(old(bits.Stream()), remaining).Err? ==> r == Err(ReadCode(old(bits.Stream()), remaining).error)
    ensures ReadCode(old(bits.Stream()), remaining).Ok? ==>
              r == Ok(ReadCode(old(bits.Stream()), remaining).value.0)
              && bits.Stream() == ReadCode(old(bits.Stream()), remaining).value.1
  {
    hide Width, Threshold, Pow2, Upward;
    var width := Width(remaining);
    ghost var start := bits.position;
    var unchecked :- bits.Read(width);
    var threshold := Threshold(remaining);
    var half := Pow2(width - 1);
    var low := unchecked % half;
    if low < threshold {
      UpwardValue(bits.data, start, width - 1);
      var rewound := bits.Rewind(1);
      r := Ok(low);
    } else if unchecked >= half {
      r := Ok(unchecked - threshold);
    } else {
      r := Ok(unchecked);
    }
  }

  /** The repeat flags after a zero; `limit` is one more than the largest symbol. */
  method TakeRun(bits: ForwardBits, start: nat, limit: nat) returns (r: Result<nat, DecodeError>)
    requires bits.Valid()
    modifies bits
    ensures bits.Valid()
    ensures ReadRun(old(bits.Stream()), start, limit).Err? ==> r == Err(ReadRun(old(bits.Stream()), start, limit).error)
    ensures ReadRun(old(bits.Stream()), start, limit).Ok? ==>
              r == Ok(ReadRun(old(bits.Stream()), start, limit).value.0)
              && bits.Stream() == ReadRun(old(bits.Stream()), start, limit).value.1
  {
    var symbols: nat := start;
    ghost var whole := ReadRun(bits.Stream(), start, limit);
    while true
      invariant bits.Valid()
      invariant ReadRun(bits.Stream(), symbols, limit) == whole
      decreases |bits.Stream()|
    {
      var zeros :- bits.Read(2);
      if symbols + zeros > limit {
        return Err(InvalidEntropyTable);
      }
      symbols := symbols + zeros;
      if zeros != 3 {
        return Ok(symbols);
      }
    }
  }

  /** One turn of the reading loop: `symbols` probabilities are in `scratch`. */
  method TakeOne(bits: ForwardBits, left: nat, symbols: nat, maxSymbol: nat, scratch: array<i16>, ghost ps: seq<i16>)
    returns (r: Result<(nat, nat), DecodeError>)
    requires bits.Valid() && 0 < left <= 512 && symbols == |ps| <= maxSymbol < MAX_SYMBOLS && Holds(scratch, ps)
    modifies bits, scratch
    ensures bits.Valid()
    ensures
      match ReadOne(old(bits.Stream()), left, ps, maxSymbol)
      case Err(e) => r == Err(e)
      case Ok(next) => r == Ok((next.left, |next.ps|)) && bits.Stream() == next.rest && Holds(scratch, next.ps)
  {
    hide ReadCode, ReadRun, Holds;
    ghost var s := bits.Stream();
    var value :- TakeCode(bits, left + 1);
    CodeSound(s, left + 1);
    var probability: i16 := value as int - 1;
    Store(scratch, symbols, probability, ps);
    if probability == 0 {
      var zeros :- TakeRun(bits, symbols + 1, maxSymbol + 1);
      RunBounds(ReadCode(s, left + 1).value.1, symbols + 1, maxSymbol + 1);
      HoldsZeros(scratch, ps + [0], zeros - symbols - 1);
      r := Ok((left, zeros));
    } else {
      r := Ok((left - Norm(probability), symbols + 1));
    }
  }

  /** Reads every probability into `scratch`, whose first 256 counters are zero. */
  method TakeCounts(bits: ForwardBits, expected: nat, maxSymbol: nat, scratch: array<i16>)
    returns (r: Result<nat, DecodeError>)
    requires bits.Valid() && expected <= 512 && maxSymbol < MAX_SYMBOLS <= scratch.Length
    requires Holds(scratch, [])
    modifies bits, scratch
    ensures bits.Valid()
    ensures
      match ReadCounts(old(bits.Stream()), expected, [], maxSymbol)
      case Err(e) => r == Err(e)
      case Ok((ps, rest)) => r == Ok(|ps|) && bits.Stream() == rest && Holds(scratch, ps)
  {
    hide ReadOne, Holds;
    ghost var ps: seq<i16> := [];
    var left: nat, symbols: nat := expected, 0;
    while left > 0
      invariant bits.Valid() && left <= 512 && symbols == |ps| <= maxSymbol + 1
      invariant ReadCounts(bits.Stream(), left, ps, maxSymbol)
          == ReadCounts(old(bits.Stream()), expected, [], maxSymbol)
      invariant Holds(scratch, ps)
      decreases maxSymbol + 1 - symbols
    {
      if symbols > maxSymbol {
        return Err(InvalidEntropyTable);
      }
      ghost var next := ReadOne(bits.Stream(), left, ps, maxSymbol);
      var step :- TakeOne(bits, left, symbols, maxSymbol, scratch, ps);
      ps := next.value.ps;
      left := step.0;
      symbols := step.1;
    }
    r := Ok(symbols);
  }

  /** The scratch holds `ps`, and zeros up to the largest alphabet. */
  ghost predicate Holds(scratch: array<i16>, ps: seq<i16>)
    reads scratch
  {
    && |ps| <= MAX_SYMBOLS <= scratch.Length
    && scratch[..|ps|] == ps
    && forall i :: |ps| <= i < MAX_SYMBOLS ==> scratch[i] == 0
  }

  method Store(scratch: array<i16>, symbols: nat, probability: i16, ghost ps: seq<i16>)
    requires Holds(scratch, ps) && symbols == |ps| < MAX_SYMBOLS
    modifies scratch
    ensures Holds(scratch, ps + [probability])
  {
    scratch[symbols] := probability;
    assert scratch[..|ps| + 1] == ps + [probability];
  }

  lemma HoldsZeros(scratch: array<i16>, ps: seq<i16>, n: nat)
    requires Holds(scratch, ps) && |ps| + n <= MAX_SYMBOLS
    ensures Holds(scratch, ps + Zeros(n))
  {
    assert scratch[..|ps| + n] == ps + Zeros(n);
  }

  /** Builds the table that `input` starts with; returns how many bytes described it. */
  method ReadDescription(table: Table, input: seq<u8>, maxSymbol: nat, maxLog: nat, scratch: array<i16>)
    returns (r: Result<nat, DecodeError>)
    requires table.Valid() && scratch.Length >= MAX_SYMBOLS
    modifies table, table.entries, scratch
    ensures table.Valid()
    ensures
      match DescriptionOf(input, maxSymbol, maxLog)
      case Err(e) => r == Err(e) && table.View() == old(table.View())
      case Ok(d) => r == Ok((d.bits + 7) / 8) && Some(table.View()) == Built(d.probabilities, d.log)
  {
    hide Upward, BitAt, Pow2, ReadCounts, Built, Entries;
    if |input| == 0 || maxSymbol >= MAX_SYMBOLS {
      return Err(InvalidEntropyTable);
    }
    var bits := new ForwardBits(input, 0);
    var first := bits.Read(4);
    assert first.Ok?;  // a byte holds four bits
    var tableLog: nat := first.value as int + 5;
    if tableLog > maxLog || tableLog > MAX_TABLE_LOG {
      return Err(InvalidEntropyTable);
    }
    LogFits(tableLog);
    for i := 0 to MAX_SYMBOLS
      modifies scratch
      invariant forall k :: 0 <= k < i ==> scratch[k] == 0
    {
      scratch[i] := 0;
    }
    assert scratch[..0] == [];
    var symbols :- TakeCounts(bits, Pow2(tableLog), maxSymbol, scratch);
    DescriptionBuilds(input, maxSymbol, maxLog);
    var built := table.BuildInPlace(scratch, symbols, tableLog);
    r := Ok((bits.position + 7) / 8);
  }
}
