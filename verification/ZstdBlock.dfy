/** Blocks (zstd-zero/src/lib.rs lines 594-747, 898-915 and 996-1038, RFC 8878
    section 3.1.1.2): what a block appends to its frame, as a function of the
    block's bytes and of what earlier blocks left behind. */
module ZstdBlock {
  import opened Numbers
  import opened Results
  import opened ZstdErrors
  import opened ZstdBits
  import opened ZstdHistory
  import opened ZstdSequences
  import opened FseSpread
  import opened FseTableSpec
  import opened FseTable
  import FseDescription
  import HuffmanTable
  import ZstdLiterals

  const MAX_BLOCK_SIZE: nat := 128 * 1024

  // ----- predefined distributions

  const LL_DEFAULT: seq<i16> :=
    [4, 3, 2, 2, 2, 2, 2, 2]
    + [2, 2, 2, 2, 2, 1, 1, 1]
    + [2, 2, 2, 2, 2, 2, 2, 2]
    + [2, 3, 2, 1, 1, 1, 1, 1]
    + [-1, -1, -1, -1]

  const OF_DEFAULT: seq<i16> :=
    [1, 1, 1, 1, 1, 1, 2, 2]
    + [2, 1, 1, 1, 1, 1, 1, 1]
    + [1, 1, 1, 1, 1, 1, 1, 1]
    + [-1, -1, -1, -1, -1, 0, 0, 0]

  const ML_DEFAULT: seq<i16> :=
    [1, 4, 3, 2, 2, 2, 2, 2]
    + [2, 1, 1, 1, 1, 1, 1, 1]
    + [1, 1, 1, 1, 1, 1, 1, 1]
    + [1, 1, 1, 1, 1, 1, 1, 1]
    + [1, 1, 1, 1, 1, 1, 1, 1]
    + [1, 1, 1, 1, 1, 1, -1, -1]
    + [-1, -1, -1, -1, -1]

  lemma {:induction false} TotalConcat(ps: seq<i16>, qs: seq<i16>)
    ensures Total(ps + qs) == Total(ps) + Total(qs)
  {
    if qs == [] {
      assert ps + qs == ps;
    } else {
      assert (ps + qs)[..|ps + qs| - 1] == ps + qs[..|qs| - 1];
      TotalConcat(ps, qs[..|qs| - 1]);
    }
  }

  lemma TotalOfEight(a: i16, b: i16, c: i16, d: i16, e: i16, f: i16, g: i16, h: i16)
    ensures Total([a, b, c, d, e, f, g, h])
         == Norm(a) + Norm(b) + Norm(c) + Norm(d) + Norm(e) + Norm(f) + Norm(g) + Norm(h)
  {
    TotalOfFour(a, b, c, d);
    TotalOfFour(e, f, g, h);
    TotalConcat([a, b, c, d], [e, f, g, h]);
    assert [a, b, c, d] + [e, f, g, h] == [a, b, c, d, e, f, g, h];
  }

  lemma TotalOfFive(a: i16, b: i16, c: i16, d: i16, e: i16)
    ensures Total([a, b, c, d, e]) == Norm(a) + Norm(b) + Norm(c) + Norm(d) + Norm(e)
  {
    TotalOfFour(a, b, c, d);
    FseDescription.TotalAppend([a, b, c, d], e);
    assert [a, b, c, d] + [e] == [a, b, c, d, e];
  }

  lemma TotalOfFour(a: i16, b: i16, c: i16, d: i16)
    ensures Total([a, b, c, d]) == Norm(a) + Norm(b) + Norm(c) + Norm(d)
  {
    hide Norm;
    FseDescription.TotalAppend([], a);
    FseDescription.TotalAppend([a], b);
    FseDescription.TotalAppend([a, b], c);
    FseDescription.TotalAppend([a, b, c], d);
    assert [] + [a] == [a] && [a] + [b] == [a, b] && [a, b] + [c] == [a, b, c] && [a, b, c] + [d] == [a, b, c, d];
  }

  // ----- the predefined distributions fill their tables

  lemma LiteralLengthTotal()
    ensures Total(LL_DEFAULT) == 64 && |LL_DEFAULT| == 36
  {
    hide Total;
    TotalOfEight(4, 3, 2, 2, 2, 2, 2, 2);
    TotalOfEight(2, 2, 2, 2, 2, 1, 1, 1);
    TotalOfEight(2, 2, 2, 2, 2, 2, 2, 2);
    TotalOfEight(2, 3, 2, 1, 1, 1, 1, 1);
    TotalOfFour(-1, -1, -1, -1);
    var a := [4, 3, 2, 2, 2, 2, 2, 2] + [2, 2, 2, 2, 2, 1, 1, 1];
    TotalConcat([4, 3, 2, 2, 2, 2, 2, 2], [2, 2, 2, 2, 2, 1, 1, 1]);
    TotalConcat(a, [2, 2, 2, 2, 2, 2, 2, 2]);
    var b := a + [2, 2, 2, 2, 2, 2, 2, 2];
    TotalConcat(b, [2, 3, 2, 1, 1, 1, 1, 1]);
    var c := b + [2, 3, 2, 1, 1, 1, 1, 1];
    TotalConcat(c, [-1, -1, -1, -1]);
  }

  lemma OffsetTotal()
    ensures Total(OF_DEFAULT) == 32 && |OF_DEFAULT| == 32
  {
    hide Total;
    TotalOfEight(1, 1, 1, 1, 1, 1, 2, 2);
    TotalOfEight(2, 1, 1, 1, 1, 1, 1, 1);
    TotalOfEight(1, 1, 1, 1, 1, 1, 1, 1);
    TotalOfEight(-1, -1, -1, -1, -1, 0, 0, 0);
    var a := [1, 1, 1, 1, 1, 1, 2, 2] + [2, 1, 1, 1, 1, 1, 1, 1];
    TotalConcat([1, 1, 1, 1, 1, 1, 2, 2], [2, 1, 1, 1, 1, 1, 1, 1]);
    TotalConcat(a, [1, 1, 1, 1, 1, 1, 1, 1]);
    var b := a + [1, 1, 1, 1, 1, 1, 1, 1];
    TotalConcat(b, [-1, -1, -1, -1, -1, 0, 0, 0]);
  }

  lemma MatchLengthTotal()
    ensures Total(ML_DEFAULT) == 64 && |ML_DEFAULT| == 53
  {
    hide Total;
    TotalOfEight(1, 4, 3, 2, 2, 2, 2, 2);
    TotalOfEight(2, 1, 1, 1, 1, 1, 1, 1);
    TotalOfEight(1, 1, 1, 1, 1, 1, 1, 1);
    TotalOfEight(1, 1, 1, 1, 1, 1, 1, 1);
    TotalOfEight(1, 1, 1, 1, 1, 1, 1, 1);
    TotalOfEight(1, 1, 1, 1, 1, 1, -1, -1);
    TotalOfFive(-1, -1, -1, -1, -1);
    var a := [1, 4, 3, 2, 2, 2, 2, 2] + [2, 1, 1, 1, 1, 1, 1, 1];
    TotalConcat([1, 4, 3, 2, 2, 2, 2, 2], [2, 1, 1, 1, 1, 1, 1, 1]);
    TotalConcat(a, [1, 1, 1, 1, 1, 1, 1, 1]);
    var b := a + [1, 1, 1, 1, 1, 1, 1, 1];
    TotalConcat(b, [1, 1, 1, 1, 1, 1, 1, 1]);
    var c := b + [1, 1, 1, 1, 1, 1, 1, 1];
    TotalConcat(c, [1, 1, 1, 1, 1, 1, 1, 1]);
    var d := c + [1, 1, 1, 1, 1, 1, 1, 1];
    TotalConcat(d, [1, 1, 1, 1, 1, 1, -1, -1]);
    var e := d + [1, 1, 1, 1, 1, 1, -1, -1];
    TotalConcat(e, [-1, -1, -1, -1, -1]);
  }

  // ----- the sequences section header

  /** The number of sequences, and the bytes that spell it. */
  function SequenceCount(input: seq<u8>): (r: Result<(nat, nat), DecodeError>)
    ensures r.Ok? ==> 1 <= r.value.1 <= |input|
  {
    if |input| == 0 then Err(InvalidBlock)
    else
      var first: nat := input[0];
      if first == 0 then Ok((0, 1))
      else if first < 128 then Ok((first, 1))
      else if first < 255 then
        if |input| < 2 then Err(InvalidBlock) else Ok(((first - 128) * 256 + input[1], 2))
      else
        if |input| < 3 then Err(InvalidBlock) else Ok((0x7f00 + input[1] as int + 256 * input[2] as int, 3))
  }

  /** Predefined, one repeated symbol, described here, or kept from the previous block. */
  ghost function SequenceTable(mode: nat, input: seq<u8>, predefined: seq<i16>, predefinedLog: nat, maxLog: nat,
      current: TableView)
    : (r: Result<(TableView, nat), DecodeError>)
    ensures r.Ok? ==> r.value.1 <= |input|
  {
    if mode == 0 then
      match Built(predefined, predefinedLog)
      case None => Err(InvalidEntropyTable)
      case Some(table) => Ok((table, 0))
    else if mode == 1 then
      if |input| == 0 then Err(InvalidEntropyTable) else Ok((RleView(input[0]), 1))
    else if mode == 2 then
      var d :- FseDescription.DescriptionOf(input, if |predefined| == 0 then 0 else |predefined| - 1, maxLog);
      match Built(d.probabilities, d.log)
      case None => Err(InvalidEntropyTable)
      case Some(table) =>
        if (d.bits + 7) / 8 > |input| then Err(InvalidBitstream) else Ok((table, (d.bits + 7) / 8))
    else if mode == 3 && current.entries != [] then Ok((current, 0))
    else Err(InvalidEntropyTable)
  }

  /** The predefined tables always build. */
  lemma PredefinedTablesBuild()
    ensures Built(LL_DEFAULT, 6).Some? && Built(OF_DEFAULT, 5).Some? && Built(ML_DEFAULT, 6).Some?
  {
    hide Built, Total;
    LiteralLengthTotal();
    OffsetTotal();
    MatchLengthTotal();
    Pow2Values();
    BuiltIffNormalized(LL_DEFAULT, 6);
    BuiltIffNormalized(OF_DEFAULT, 5);
    BuiltIffNormalized(ML_DEFAULT, 6);
  }

  method BuildSequenceTable(table: Table, scratch: array<i16>, mode: nat, input: seq<u8>, predefined: seq<i16>,
                            predefinedLog: nat, maxLog: nat)
    returns (r: Result<nat, DecodeError>)
    requires table.Valid() && scratch.Length >= MAX_SYMBOLS && 0 < |predefined| <= MAX_SYMBOLS
    requires predefinedLog != 1 && predefinedLog != 3
    modifies table, table.entries, scratch
    ensures table.Valid()
    ensures
      match SequenceTable(mode, input, predefined, predefinedLog, maxLog, old(table.View()))
      case Err(e) => r == Err(e)
      case Ok((view, consumed)) => r == Ok(consumed) && table.View() == view
  {
    hide Built, FseDescription.DescriptionOf;
    if mode == 0 {
      var _ :- table.Build(predefined, predefinedLog, scratch);
      r := Ok(0);
    } else if mode == 1 {
      if |input| == 0 {
        return Err(InvalidEntropyTable);
      }
      table.BuildRle(input[0]);
      r := Ok(1);
    } else if mode == 2 {
      DescriptionFits(input, |predefined| - 1, maxLog);
      r := FseDescription.ReadDescription(table, input, |predefined| - 1, maxLog, scratch);
    } else if mode == 3 && table.len != 0 {
      r := Ok(0);
    } else {
      r := Err(InvalidEntropyTable);
    }
  }

  /** A description never reaches beyond its input, and always builds. */
  lemma DescriptionFits(input: seq<u8>, maxSymbol: nat, maxLog: nat)
    ensures
      match FseDescription.DescriptionOf(input, maxSymbol, maxLog)
      case Err(_) => true
      case Ok(d) => (d.bits + 7) / 8 <= |input| && Built(d.probabilities, d.log).Some?
  {
    hide Built, FseDescription.ReadCounts;
    if FseDescription.DescriptionOf(input, maxSymbol, maxLog).Ok? {
      FseDescription.DescriptionBuilds(input, maxSymbol, maxLog);
    }
  }

  // ----- blocks

  datatype BlockKind = RawBlock | RleBlock | CompressedBlock

  datatype BlockHeader = BlockHeader(last: bool, kind: BlockKind, size: nat) {
    function PayloadSize(): nat
    {
      if kind == RleBlock then 1 else size
    }
  }

  function ParseBlockHeader(bytes: seq<u8>, limit: nat): (r: Result<BlockHeader, DecodeError>)
    requires |bytes| == 3
  {
    var value: nat := bytes[0] as int + 256 * bytes[1] as int + 65536 * bytes[2] as int;
    var kind := value / 2 % 4;
    var size := value / 8;
    if kind == 3 || size > limit then Err(InvalidBlock)
    else Ok(BlockHeader(value % 2 == 1, if kind == 0 then RawBlock else if kind == 1 then RleBlock else CompressedBlock,
        size))
  }

  /** What a frame carries from block to block: its output, the recent offsets and the entropy tables. */
  datatype Carried = Carried(out: seq<u8>, recent: Recent, code: HuffmanTable.CodeView, tables: Tables)

  /** The lengths that bound a block: the caller's buffers and the frame's window. */
  datatype Bounds = Bounds(capacity: nat, literalSpace: nat, window: nat) {
    function Limit(): nat
    {
      Min(window, MAX_BLOCK_SIZE)
    }
  }

  ghost function CompressedOutput(payload: seq<u8>, before: Carried, bounds: Bounds): (r: Result<Carried, DecodeError>)
    requires HuffmanTable.WellFormed(before.code)
    ensures r.Ok? ==> HuffmanTable.WellFormed(r.value.code)
  {
    var section :- ZstdLiterals.LiteralsOf(payload, before.code, bounds.literalSpace, bounds.Limit());
    var (n, position) :- SequenceCount(payload[section.end..]);
    if n == 0 then
      if section.end + position != |payload| then Err(InvalidBlock)
      else
        var out :- Append(before.out, section.literals, bounds.capacity);
        Ok(before.(out := out, code := section.code))
    else
      Sequences(payload[section.end + position..], n, section.literals, before.(code := section.code), bounds)
  }

  /** Modes, table descriptions in the order literal length, offset, match length, and the bit stream. */
  ghost function Sequences(input: seq<u8>, n: nat, literals: seq<u8>, before: Carried, bounds: Bounds)
    : (r: Result<Carried, DecodeError>)
    ensures r.Ok? ==> r.value.code == before.code
  {
    if |input| == 0 || input[0] % 4 != 0 then Err(InvalidBlock)
    else
      var tables :- SequenceTables(input, before.tables);
      match Payload(input[tables.1..])
      case None => Err(InvalidBitstream)
      case Some(s) =>
        var p :- Section(tables.0, s, n, Progress(before.out, before.recent, 0),
                         Setting(literals, bounds.window, bounds.capacity));
        Ok(Carried(p.out, p.recent, before.code, tables.0))
  }

  /** The three tables behind the modes byte, and where their descriptions end. */
  ghost function SequenceTables(input: seq<u8>, before: Tables): (r: Result<(Tables, nat), DecodeError>)
    requires |input| > 0
    ensures r.Ok? ==> r.value.1 <= |input|
  {
    var modes := input[0];
    var ll :- SequenceTable(modes / 64, input[1..], LL_DEFAULT, 6, 9, before.literalLengths);
    var at := 1 + ll.1;
    var of :- SequenceTable(modes / 16 % 4, input[at..], OF_DEFAULT, 5, 8, before.offsets);
    var at := at + of.1;
    var ml :- SequenceTable(modes / 4 % 4, input[at..], ML_DEFAULT, 6, 9, before.matchLengths);
    Ok((Tables(ll.0, of.0, ml.0), at + ml.1))
  }

  /** A block's effect, however long. */
  ghost function BlockEffect(header: BlockHeader, payload: seq<u8>, before: Carried, bounds: Bounds)
    : (r: Result<Carried, DecodeError>)
    requires |payload| == header.PayloadSize() && HuffmanTable.WellFormed(before.code)
    ensures r.Ok? ==> HuffmanTable.WellFormed(r.value.code)
  {
    match header.kind
    case RawBlock =>
      var out :- Append(before.out, payload, bounds.capacity);
      Ok(before.(out := out))
    case RleBlock =>
      var out :- Append(before.out, Run(payload[0], header.size), bounds.capacity);
      Ok(before.(out := out))
    case CompressedBlock => CompressedOutput(payload, before, bounds)
  }

  /** A block that regenerates more than the limit is invalid. */
  ghost function BlockOutput(header: BlockHeader, payload: seq<u8>, before: Carried, bounds: Bounds)
    : (r: Result<Carried, DecodeError>)
    requires |payload| == header.PayloadSize() && HuffmanTable.WellFormed(before.code)
    ensures r.Ok? ==> HuffmanTable.WellFormed(r.value.code)
  {
    var after :- BlockEffect(header, payload, before, bounds);
    if |after.out| - |before.out| > bounds.Limit() then Err(InvalidBlock) else Ok(after)
  }

  // ----- a block only appends

  /** Whatever a block does, it appends to the frame's output and keeps the repeat offsets positive; so does a
      valid block, which appends no more than the limit. */
  lemma BlockAppends(header: BlockHeader, payload: seq<u8>, before: Carried, bounds: Bounds)
    requires |payload| == header.PayloadSize() && HuffmanTable.WellFormed(before.code)
    requires Positive(before.recent)
    ensures
      match BlockEffect(header, payload, before, bounds)
      case Err(_) => true
      case Ok(after) => before.out <= after.out && Positive(after.recent)
  {
    hide CompressedOutput, HuffmanTable.WellFormed;
    if header.kind == CompressedBlock && CompressedOutput(payload, before, bounds).Ok? {
      CompressedAppends(payload, before, bounds);
    }
  }

  lemma CompressedAppends(payload: seq<u8>, before: Carried, bounds: Bounds)
    requires HuffmanTable.WellFormed(before.code) && Positive(before.recent)
        && CompressedOutput(payload, before, bounds).Ok?
    ensures before.out <= CompressedOutput(payload, before, bounds).value.out
    ensures Positive(CompressedOutput(payload, before, bounds).value.recent)
  {
    hide ZstdLiterals.LiteralsOf, SequenceCount, Sequences, HuffmanTable.WellFormed, Append;
    var section := ZstdLiterals.LiteralsOf(payload, before.code, bounds.literalSpace, bounds.Limit()).value;
    var (n, position) := SequenceCount(payload[section.end..]).value;
    if n == 0 {
      AppendGrows(before.out, section.literals, bounds.capacity);
    } else {
      SequencesAppend(payload[section.end + position..], n, section.literals, before.(code := section.code), bounds);
    }
  }

  lemma AppendGrows(out: seq<u8>, bytes: seq<u8>, capacity: nat)
    requires Append(out, bytes, capacity).Ok?
    ensures out <= Append(out, bytes, capacity).value
  {
  }

  lemma SequencesAppend(input: seq<u8>, n: nat, literals: seq<u8>, before: Carried, bounds: Bounds)
    requires Positive(before.recent) && Sequences(input, n, literals, before, bounds).Ok?
    ensures before.out <= Sequences(input, n, literals, before, bounds).value.out
    ensures Positive(Sequences(input, n, literals, before, bounds).value.recent)
  {
    hide SequenceTables, Section, Downward;
    var tables := SequenceTables(input, before.tables).value;
    SectionAppends(tables.0, Payload(input[tables.1..]).value, n, Progress(before.out, before.recent, 0),
                   Setting(literals, bounds.window, bounds.capacity));
  }

  lemma SectionAppends(tables: Tables, s: seq<bit>, n: nat, p: Progress, setting: Setting)
    requires Positive(p.recent) && p.used == 0 && Section(tables, s, n, p, setting).Ok?
    ensures p.out <= Section(tables, s, n, p, setting).value.out
    ensures Positive(Section(tables, s, n, p, setting).value.recent)
  {
    hide Interleave, TopBits, Append;
    var ll := TopBits(s, tables.literalLengths.log).value;
    var s1 := s[tables.literalLengths.log..];
    var of := TopBits(s1, tables.offsets.log).value;
    var s2 := s1[tables.offsets.log..];
    var ml := TopBits(s2, tables.matchLengths.log).value;
    var at := Cursor(ll, of, ml, s2[tables.matchLengths.log..]);
    InterleaveAppends(tables, at, n, p, setting);
    var done := Interleave(tables, at, n, p, setting).value.0;
    AppendGrows(done.out, setting.literals[done.used..], setting.capacity);
  }

  lemma InterleaveAppends(tables: Tables, at: Cursor, n: nat, p: Progress, setting: Setting)
    requires Positive(p.recent) && p.used == 0 && Interleave(tables, at, n, p, setting).Ok?
    ensures p.out <= Interleave(tables, at, n, p, setting).value.0.out
    ensures Positive(Interleave(tables, at, n, p, setting).value.0.recent)
  {
    hide Interleave, ReadAll, ExecuteAll;
    InterleaveIsReadThenExecute(tables, at, n, p, setting);
    ExecuteAllGrows(p, ReadAll(tables, at, n).value.0, setting);
  }
}
