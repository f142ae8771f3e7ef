/** The resumable decoder (zstd-zero/src/lib.rs lines 187-781). It works in its
    caller's buffers and takes its input in fragments; every step is shown to be
    a transition of the machine of ZstdMachine, so that any fragmentation yields
    what ZstdStream.DecodeFrames yields on the whole stream. */
module ZstdDecoder {
  import opened Numbers
  import opened Results
  import opened Concatenation
  import opened ZstdErrors
  import opened ZstdBits
  import opened ZstdHistory
  import opened ZstdSequences
  import opened ZstdBlock
  import opened ZstdStream
  import opened ZstdMachine
  import FseTable
  import FseTableSpec
  import HuffmanTable
  import ZstdLiterals

  const FSE_SCRATCH_LEN: nat := 256
  const HUFFMAN_ENTRIES: nat := 2048

  datatype FrameKind = ZstandardFrame | SkippableFrame(magic: nat, size: nat)

  datatype State =
    | HeaderState
    | SkippableState(magic: nat, size: nat, remaining: nat)
    | BlockHeaderState
    | BlockPayloadState(header: BlockHeader, filled: nat)
    | ChecksumState(filled: nat)
    | FrameDoneState(kind: FrameKind)

  datatype InternalStep = NeedInput | FrameStarted(header: StreamHeader) | Output(start: nat, length: nat)
      | FrameFinished(kind: FrameKind)

  /** What a caller sees of a step; `bytes` is the stretch of history that an output step names. */
  datatype DecodeStep = DecodeStep(consumed: nat, step: InternalStep, bytes: seq<u8>)

  /** `DecoderStalled` is the decoder's complaint about itself. */
  datatype StreamError = Decode(error: DecodeError) | DecoderStalled

  class Decoder {
    const history: History
    const block: array<u8>
    const literals: array<u8>
    const fseScratch: array<i16>
    const headerBuffer: array<u8>
    const blockHeaderBuffer: array<u8>
    const checksumBuffer: array<u8>
    const offsets: array<u32>
    const huffman: HuffmanTable.Table
    const literalLengths: FseTable.Table
    const offsetsTable: FseTable.Table
    const matchLengths: FseTable.Table
    const xxh64: seq<u8> -> u64
    var state: State
    var poisoned: bool
    var completedFrames: u64
    var headerLen: nat
    var blockHeaderLen: nat
    var currentHeader: Option<FrameHeader>
    var blockLimit: nat
    var pendingStart: nat
    var pendingLen: nat
    /** The bytes that the running checksum has seen. */
    var checksum: seq<u8>

    /** The four FSE tables get disjoint parts of the caller's entries. */
    constructor (fseScratch: array<i16>, weights: array<FseTableSpec.Entry>, literalLengths: array<FseTableSpec.Entry>,
                 offsets: array<FseTableSpec.Entry>, matchLengths: array<FseTableSpec.Entry>,
                 huffman: array<HuffmanTable.Entry>, history: array<u8>, block: array<u8>, literals: array<u8>,
                 xxh64: seq<u8> -> u64)
      requires fseScratch.Length >= FSE_SCRATCH_LEN && huffman.Length >= HUFFMAN_ENTRIES
      requires weights.Length >= 512 && literalLengths.Length >= 512 && offsets.Length >= 512
          && matchLengths.Length >= 512
      requires weights != literalLengths && weights != offsets && weights != matchLengths
      requires literalLengths != offsets && literalLengths != matchLengths && offsets != matchLengths
      requires history != block && history != literals && block != literals
      ensures Valid() && !poisoned && MachineNow() == START
      ensures Env() == Environment(history.Length, block.Length, literals.Length, xxh64)
    {
      hide Remembers, Placed, CarriedNow, PhaseNow, MachineNow, Running, Shaped, Settled, Valid, Workspace;
      this.history := new History(history);
      this.block := block;
      this.literals := literals;
      this.fseScratch := fseScratch;
      this.headerBuffer := new u8[MAX_FRAME_HEADER_SIZE](_ => 0);
      this.blockHeaderBuffer := new u8[3](_ => 0);
      this.checksumBuffer := new u8[4](_ => 0);
      this.offsets := new u32[3][1, 4, 8];
      var tree, ll, of, ml := NewTables(weights, literalLengths, offsets, matchLengths, huffman);
      this.huffman, this.literalLengths, this.offsetsTable, this.matchLengths := tree, ll, of, ml;
      this.xxh64 := xxh64;
      state, poisoned, completedFrames := HeaderState, false, 0;
      headerLen, blockHeaderLen, currentHeader := 0, 0, None;
      blockLimit, pendingStart, pendingLen, checksum := 0, 0, 0, [];
      new;
      StartIsRunning();
    }

    /** No two buffers of the same kind share storage. */
    ghost predicate Separate()
    {
      && headerBuffer.Length == MAX_FRAME_HEADER_SIZE && blockHeaderBuffer.Length == 3 && checksumBuffer.Length == 4
      && offsets.Length == 3 && fseScratch.Length >= FSE_SCRATCH_LEN
      && history.buffer != block && history.buffer != literals && history.buffer != headerBuffer
      && history.buffer != blockHeaderBuffer && history.buffer != checksumBuffer
      && block != literals && block != headerBuffer && block != blockHeaderBuffer && block != checksumBuffer
      && literals != headerBuffer && literals != blockHeaderBuffer && literals != checksumBuffer
      && headerBuffer != blockHeaderBuffer && headerBuffer != checksumBuffer && blockHeaderBuffer != checksumBuffer
      && huffman.scratch != literalLengths && huffman.scratch != offsetsTable && huffman.scratch != matchLengths
      && literalLengths != offsetsTable && literalLengths != matchLengths && offsetsTable != matchLengths
      && huffman.scratch.entries != literalLengths.entries && huffman.scratch.entries != offsetsTable.entries
      && huffman.scratch.entries != matchLengths.entries && literalLengths.entries != offsetsTable.entries
      && literalLengths.entries != matchLengths.entries && offsetsTable.entries != matchLengths.entries
    }

    /** What blocks write to. */
    ghost function Workspace(): set<object>
    {
      {history, history.buffer, literals, fseScratch, offsets, huffman, huffman.entries, huffman.scratch,
          huffman.scratch.entries,
       literalLengths, literalLengths.entries, offsetsTable, offsetsTable.entries, matchLengths, matchLengths.entries}
    }

    lemma NotInWorkspace()
      ensures this !in Workspace()
      ensures Separate() ==> {block, headerBuffer, blockHeaderBuffer, checksumBuffer} !! Workspace()
      ensures {history, history.buffer, literals, fseScratch, offsets} <= Workspace() && allocated(Workspace())
    {
    }

    lemma CollectingBuffers()
      requires Separate()
      ensures headerBuffer.Length == MAX_FRAME_HEADER_SIZE && blockHeaderBuffer.Length == 3
          && checksumBuffer.Length == 4
      ensures headerBuffer != blockHeaderBuffer && headerBuffer != checksumBuffer && blockHeaderBuffer != checksumBuffer
      ensures block !in {headerBuffer, blockHeaderBuffer, checksumBuffer}
    {
    }

    /** Holds even after an error. */
    ghost predicate Tidy()
      reads Workspace()
    {
      && Separate() && history.Shaped() && huffman.Valid()
      && literalLengths.Valid() && offsetsTable.Valid() && matchLengths.Valid()
    }

    lemma TidyIsSeparate()
      requires Tidy()
      ensures Separate() && history.Shaped()
    {
    }

    ghost function TablesNow(): Tables
      reads Workspace()
      requires Tidy()
    {
      TablesOf(literalLengths, offsetsTable, matchLengths)
    }

    ghost function CarriedNow(): (carried: Carried)
      reads Workspace()
      requires Tidy()
      ensures HuffmanTable.WellFormed(carried.code) && carried.out == history.out
    {
      ZstdLiterals.StillWellFormed(huffman);
      Carried(history.out, RecentOf(offsets), huffman.View(), TablesNow())
    }

    // ----- compressed blocks

    /** Builds the three tables in the order literal length, offset, match length; returns where the bit stream
        begins. */
    method BuildTables(input: seq<u8>) returns (r: Result<nat, DecodeError>)
      requires Tidy() && |input| > 0
      modifies fseScratch, literalLengths, literalLengths.entries, offsetsTable, offsetsTable.entries, matchLengths,
          matchLengths.entries
      ensures Tidy()
      ensures
        match SequenceTables(input, old(TablesNow()))
        case Err(e) => r == Err(e)
        case Ok((tables, end)) => r == Ok(end) && end <= |input| && TablesNow() == tables
    {
      hide SequenceTable, LL_DEFAULT, OF_DEFAULT, ML_DEFAULT, HuffmanTable.Tabulates;
      DefaultSizes();
      var modes := input[0];
      var ll :- BuildSequenceTable(literalLengths, fseScratch, modes / 64, input[1..], LL_DEFAULT, 6, 9);
      var position := 1 + ll;
      var of :- BuildSequenceTable(offsetsTable, fseScratch, modes / 16 % 4, input[position..], OF_DEFAULT, 5, 8);
      position := position + of;
      var ml :- BuildSequenceTable(matchLengths, fseScratch, modes / 4 % 4, input[position..], ML_DEFAULT, 6, 9);
      r := Ok(position + ml);
    }

    /** The tables of a block's sequences replace those of the block before. */
    method ReadTables(input: seq<u8>) returns (r: Result<nat, DecodeError>)
      requires Tidy() && history.Valid() && |input| > 0
      modifies fseScratch, literalLengths, literalLengths.entries, offsetsTable, offsetsTable.entries, matchLengths,
          matchLengths.entries
      ensures Tidy() && history.Valid()
      ensures
        match SequenceTables(input, old(CarriedNow()).tables)
        case Err(e) => r == Err(e)
        case Ok((tables, end)) => r == Ok(end) && end <= |input| && CarriedNow() == old(CarriedNow()).(tables := tables)
    {
      hide SequenceTables, Remembers, Placed, HuffmanTable.Tabulates, HuffmanTable.WellFormed;
      r := BuildTables(input);
    }

    /** Executes n sequences from their bit stream. */
    method ExecuteSection(stream: seq<u8>, n: nat, count: nat, window: nat) returns (r: Result<(), DecodeError>)
      requires Tidy() && history.Valid() && n > 0 && count <= literals.Length && window <= history.buffer.Length
      modifies history, history.buffer, offsets
      ensures Tidy()
      ensures
        match Payload(stream)
        case None => r == Err(InvalidBitstream)
        case Some(s) =>
          var before := old(CarriedNow());
          match Section(before.tables, s, n, Progress(before.out, before.recent, 0),
                        Setting(literals[..count], window, history.buffer.Length))
          case Err(e) => r == Err(e)
          case Ok(p) =>
            && r == Ok(()) && history.Valid() && history.origin == old(history.origin)
            && CarriedNow() == before.(out := p.out, recent := p.recent)
    {
      hide Section, Downward, Remembers, Placed, HuffmanTable.Tabulates, HuffmanTable.WellFormed;
      var bits :- BackwardBits.Open(stream);
      r := RunSection(history, offsets, literalLengths, offsetsTable, matchLengths, bits, literals, count, n, window);
    }

    /** Decodes n sequences behind their modes byte, with the first `count` literals. */
    method DecodeSequences(input: seq<u8>, n: nat, count: nat, window: nat) returns (r: Result<(), DecodeError>)
      requires Tidy() && history.Valid() && n > 0 && count <= literals.Length && window <= history.buffer.Length
      modifies Workspace() - {literals}
      ensures Tidy()
      ensures
        match Sequences(input, n, literals[..count], old(CarriedNow()),
            Bounds(history.buffer.Length, literals.Length, window))
        case Err(e) => r == Err(e)
        case Ok(after) =>
          && r == Ok(()) && history.Valid() && CarriedNow() == after
          && history.origin == old(history.origin)
    {
      hide SequenceTables, Section, Downward, Remembers, Placed, HuffmanTable.WellFormed, CarriedNow, Tidy;
      TidyIsSeparate();
      if |input| == 0 {
        return Err(InvalidBlock);
      }
      if input[0] % 4 != 0 {
        return Err(InvalidBlock);
      }
      var end :- ReadTables(input);
      r := ExecuteSection(input[end..], n, count, window);
    }

    /** The literals of a block, to the front of their buffer; they may leave another Huffman code behind. */
    method TakeLiterals(payload: seq<u8>, limit: nat) returns (r: Result<(nat, nat), DecodeError>)
      requires Tidy() && history.Valid()
      modifies literals, huffman, huffman.entries, huffman.scratch, huffman.scratch.entries, fseScratch
      ensures Tidy() && history.Valid()
      ensures
        match ZstdLiterals.LiteralsOf(payload, old(CarriedNow()).code, literals.Length, limit)
        case Err(e) => r == Err(e)
        case Ok(section) =>
          && r == Ok((|section.literals|, section.end)) && CarriedNow() == old(CarriedNow()).(code := section.code)
          && |section.literals| <= literals.Length && literals[..|section.literals|] == section.literals
    {
      hide ZstdLiterals.LiteralsOf, Remembers, Placed, HuffmanTable.Tabulates, HuffmanTable.WellFormed;
      ZstdLiterals.StillWellFormed(huffman);
      r := ZstdLiterals.DecodeLiterals(payload, literals, huffman, fseScratch, limit);
    }

    /** A block without sequences is its literals. */
    method WriteLiterals(count: nat) returns (r: Result<(), DecodeError>)
      requires Tidy() && history.Valid() && count <= literals.Length
      modifies history, history.buffer
      ensures Tidy()
      ensures
        match Append(old(history.out), literals[..count], history.buffer.Length)
        case Err(e) => r == Err(e)
        case Ok(all) =>
          r == Ok(()) && history.Valid() && CarriedNow() == old(CarriedNow()).(out := all)
              && history.origin == old(history.origin)
    {
      hide Append, Remembers, Placed, HuffmanTable.Tabulates, HuffmanTable.WellFormed;
      r := history.WriteAll(literals[..count]);
    }

    method DecodeCompressed(size: nat, window: nat) returns (r: Result<(), DecodeError>)
      requires Tidy() && history.Valid() && size <= block.Length && window <= history.buffer.Length
      modifies Workspace()
      ensures Tidy()
      ensures
        match CompressedOutput(block[..size], old(CarriedNow()), Bounds(history.buffer.Length, literals.Length, window))
        case Err(e) => r == Err(e)
        case Ok(after) =>
          && r == Ok(()) && history.Valid() && CarriedNow() == after
          && history.origin == old(history.origin)
    {
      hide ZstdLiterals.LiteralsOf, SequenceCount, Sequences, Append, Remembers, Placed, HuffmanTable.WellFormed,
          CarriedNow, Tidy;
      TidyIsSeparate();
      var payload := block[..size];
      var section :- TakeLiterals(payload, Min(window, MAX_BLOCK_SIZE));
      var (count, consumed) := section;
      var sequenceInput := payload[consumed..];
      var sequences :- SequenceCount(sequenceInput);
      var (n, position) := sequences;
      if n == 0 {
        if position != |sequenceInput| {
          return Err(InvalidBlock);
        }
        r := WriteLiterals(count);
      } else {
        r := DecodeSequences(payload[consumed + position..], n, count, window);
      }
    }

    // ----- the machine behind the buffers

    /** Everything the decoder may write to. */
    ghost function Footprint(): set<object>
    {
      Workspace() + {this, block, headerBuffer, blockHeaderBuffer, checksumBuffer}
    }

    lemma InFootprint()
      ensures {this, history, history.buffer} <= Footprint() && Workspace() <= Footprint() && allocated(Footprint())
    {
    }

    ghost function Env(): Environment
    {
      Environment(history.buffer.Length, block.Length, literals.Length, xxh64)
    }

    predicate InFrame()
      reads this
    {
      state.BlockHeaderState? || state.BlockPayloadState? || state.ChecksumState?
    }

    /** The collected bytes fit their buffers. */
    ghost predicate Shaped()
      reads Footprint()
    {
      && Tidy() && headerLen <= MAX_FRAME_HEADER_SIZE && blockHeaderLen <= 3 && pendingLen <= |history.out|
      && (InFrame() ==> currentHeader.Some?)
      && (state.BlockPayloadState? ==> state.filled <= state.header.PayloadSize() <= block.Length)
      && (state.ChecksumState? ==> state.filled <= 4)
    }

    ghost function FrameNow(): (frame: Frame)
      reads this, Workspace()
      requires Tidy() && currentHeader.Some?
    {
      Frame(currentHeader.value, CarriedNow())
    }

    ghost function PhaseNow(): Phase
      reads Footprint()
      requires Shaped()
    {
      match state
      case HeaderState => AtHeader(headerBuffer[..headerLen])
      case SkippableState(_, _, remaining) => AtSkip(remaining)
      case BlockHeaderState => AtBlock(FrameNow(), blockHeaderBuffer[..blockHeaderLen])
      case BlockPayloadState(header, filled) => AtPayload(FrameNow(), header, block[..filled])
      case ChecksumState(filled) => AtChecksum(FrameNow(), checksumBuffer[..filled])
      case FrameDoneState(_) => AtEnd
    }

    ghost function MachineNow(): Machine
      reads Footprint()
      requires Shaped()
    {
      Machine(PhaseNow(), if pendingLen == 0 then [] else history.out[|history.out| - pendingLen..], completedFrames)
    }

    /** The frame's settings agree with its header, and the checksum has seen its whole output. */
    ghost predicate FrameAgrees()
      reads Footprint()
    {
      && currentHeader.Some? && currentHeader.value.windowSize <= history.buffer.Length
      && blockLimit == Min(currentHeader.value.windowSize, MAX_BLOCK_SIZE)
      && checksum == history.out
    }

    ghost predicate PendingIsBehind()
      reads this, history
    {
      pendingLen > 0 ==>
        && pendingLen <= history.buffer.Length && history.position < history.buffer.Length
        && pendingStart == Behind(history.position, pendingLen, history.buffer.Length)
    }

    /** In how many contiguous pieces the caller will see what is pending. */
    ghost function Pieces(): (pieces: nat)
      reads this
      ensures pieces <= 2 && (pieces == 0 <==> pendingLen == 0)
    {
      if pendingLen == 0 then 0 else if pendingStart + pendingLen <= history.buffer.Length then 1 else 2
    }

    /** No error so far. */
    ghost predicate Running()
      reads Footprint()
      ensures Running() ==> Tidy() && Shaped() && !poisoned && Coherent(PhaseNow())
    {
      && Shaped() && !poisoned && history.Valid() && Coherent(PhaseNow()) && PendingIsBehind()
      && (!state.HeaderState? ==> headerLen == 0) && (state.BlockHeaderState? ==> blockHeaderLen < 3)
      && (!state.BlockHeaderState? ==> blockHeaderLen == 0)
      && (InFrame() ==> FrameAgrees())
    }

    // ----- blocks

    /** The bytes of a block, into the ring. */
    method WriteBlock(header: BlockHeader) returns (r: Result<(), DecodeError>)
      requires Tidy() && history.Valid() && header.PayloadSize() <= block.Length && FrameAgrees()
      modifies Workspace()
      ensures Tidy()
      ensures
        match BlockEffect(header, old(block[..header.PayloadSize()]), old(CarriedNow()), old(FrameNow().Bounded(Env())))
        case Err(e) => r == Err(e)
        case Ok(after) =>
          && r == Ok(()) && history.Valid() && CarriedNow() == after
          && history.origin == old(history.origin)
    {
      hide CompressedOutput, Append, Remembers, Placed, HuffmanTable.Tabulates, HuffmanTable.WellFormed;
      match header.kind {
        case RawBlock =>
          r := history.WriteAll(block[..header.size]);
        case RleBlock =>
          r := history.WriteRun(block[0], header.size);
        case CompressedBlock =>
          r := DecodeCompressed(header.size, currentHeader.value.windowSize);
      }
    }

    /** Remembers which part of the ring the caller has to see, and feeds it to the checksum in at most two pieces. */
    method RecordOutput(start: nat, length: nat)
      requires history.Valid() && length <= |history.out| && length <= history.buffer.Length && pendingLen == 0
      requires length > 0 ==>
        history.position < history.buffer.Length && start == Behind(history.position, length, history.buffer.Length)
      modifies `pendingStart, `pendingLen, `checksum
      ensures pendingLen == length && (length > 0 ==> pendingStart == start)
      ensures checksum == old(checksum) + history.out[|history.out| - length..]
    {
      hide Placed;
      if length == 0 {
        assert history.out[|history.out|..] == [];
        return;
      }
      var first := Min(length, history.buffer.Length - start);
      RingSlices(history.buffer[..], history.position, history.out, start, length, first);
      checksum := checksum + history.buffer[start..start + first];
      if first != length {
        checksum := checksum + history.buffer[..length - first];
      }
      pendingStart := start;
      pendingLen := length;
    }

    method ProcessBlock(header: BlockHeader) returns (r: Result<(), DecodeError>)
      requires Tidy() && history.Valid() && header.PayloadSize() <= block.Length && FrameAgrees() && pendingLen == 0
      requires Sound(FrameNow())
      modifies Workspace(), `pendingStart, `pendingLen, `checksum
      ensures Tidy()
      ensures
        match BlockOutput(header, old(block[..header.PayloadSize()]), old(CarriedNow()), old(FrameNow().Bounded(Env())))
        case Err(e) => r == Err(e)
        case Ok(after) =>
          && r == Ok(()) && history.Valid() && CarriedNow() == after && FrameAgrees() && PendingIsBehind()
          && old(history.out) <= history.out && pendingLen == |history.out| - |old(history.out)|
    {
      hide BlockEffect, Remembers, Placed, Behind, HuffmanTable.Tabulates, HuffmanTable.WellFormed, Workspace;
      NotInWorkspace();
      var start := history.position;
      var before := history.frameOutput;
      ghost var payload, carried, bounds := block[..header.PayloadSize()], CarriedNow(), FrameNow().Bounded(Env());
      BlockAppends(header, payload, carried, bounds);
      var _ :- WriteBlock(header);
      var produced := history.frameOutput - before;
      if produced > blockLimit {
        return Err(InvalidBlock);
      }
      if produced > 0 {
        BehindIsWhereItBegan(start, history.position, history.origin, before, produced, history.buffer.Length);
      }
      RecordOutput(start, produced);
      r := Ok(());
    }

    // ----- one step

    method ReadBlockHeader(input: seq<u8>) returns (r: Result<Option<InternalStep>, DecodeError>, rest: seq<u8>)
      requires Running() && pendingLen == 0 && state.BlockHeaderState?
      modifies this, blockHeaderBuffer
      ensures Tidy()
      ensures
        match Consume(Env(), old(MachineNow()), input)
        case Err(e) => r == Err(e)
        case Ok(after) =>
          && Running() && MachineNow() == after && rest == input[Min(old(Missing(PhaseNow())), |input|)..]
          && r == Ok(if |input| < old(Missing(PhaseNow())) then Some(NeedInput) else None)
    {
      hide PhaseNow, MachineNow, Running, AcceptBlock, Consume, Coherent, Missing, Tidy, FrameAgrees;
      RunningAtBlock();
      ConsumeBlock(Env(), FrameNow(), blockHeaderBuffer[..blockHeaderLen], completedFrames, input);
      rest := CollectBlockHeader(input);
      if blockHeaderLen < 3 {
        return Ok(Some(NeedInput)), rest;
      }
      var entered := EnterPayload();
      r := if entered.Err? then Err(entered.error) else Ok(None);
    }

    lemma RunningAtBlock()
      requires Running() && pendingLen == 0 && state.BlockHeaderState?
      ensures Shaped() && currentHeader.Some? && blockHeaderLen < blockHeaderBuffer.Length == 3
      ensures Coherent(AtBlock(FrameNow(), blockHeaderBuffer[..blockHeaderLen]))
      ensures PhaseNow() == AtBlock(FrameNow(), blockHeaderBuffer[..blockHeaderLen])
      ensures MachineNow() == Machine(AtBlock(FrameNow(), blockHeaderBuffer[..blockHeaderLen]), [], completedFrames)
    {
    }

    method CollectBlockHeader(input: seq<u8>) returns (rest: seq<u8>)
      requires Running() && pendingLen == 0 && state.BlockHeaderState?
      modifies `blockHeaderLen, blockHeaderBuffer
      ensures blockHeaderLen == old(blockHeaderLen) + Min(3 - old(blockHeaderLen), |input|)
      ensures rest == input[blockHeaderLen - old(blockHeaderLen)..]
      ensures Tidy() && blockHeaderLen <= blockHeaderBuffer.Length == 3 && currentHeader.Some?
          && FrameNow() == old(FrameNow())
      ensures history.Valid() && PendingIsBehind() && FrameAgrees() && headerLen == 0
      ensures blockHeaderBuffer[..blockHeaderLen] ==
                old(blockHeaderBuffer[..blockHeaderLen]) + input[..blockHeaderLen - old(blockHeaderLen)]
      ensures blockHeaderLen < 3 ==>
        Running() && MachineNow()
            == Machine(AtBlock(FrameNow(), blockHeaderBuffer[..blockHeaderLen]), [], completedFrames)
    {
      hide Consume, Coherent, Missing, Remembers, Placed, Behind, HuffmanTable.Tabulates, HuffmanTable.WellFormed,
          CarriedNow, Workspace, Separate;
      NotInWorkspace();
      CollectingBuffers();
      ConsumeBlock(Env(), FrameNow(), blockHeaderBuffer[..blockHeaderLen], completedFrames, input);
      blockHeaderLen, rest := FillBuffer(blockHeaderBuffer, 3, blockHeaderLen, input);
    }

    /** A block header that is complete: whether it is accepted, and the state behind it. */
    method EnterPayload() returns (r: Result<(), DecodeError>)
      requires Tidy() && history.Valid() && !poisoned && PendingIsBehind() && FrameAgrees() && pendingLen == 0
      requires state.BlockHeaderState? && headerLen == 0 && blockHeaderLen == 3 == blockHeaderBuffer.Length
      requires Coherent(AtBlock(FrameNow(), blockHeaderBuffer[..3]))
      modifies `state, `blockHeaderLen
      ensures Tidy()
      ensures
        match AcceptBlock(Env(), blockHeaderBuffer[..3], FrameNow())
        case Err(e) => r == Err(e)
        case Ok(header) =>
          && r == Ok(()) && Running()
              && MachineNow() == Machine(AtPayload(old(FrameNow()), header, []), [], completedFrames)
    {
      hide ParseBlockHeader, Sound, Remembers, Placed, Behind, HuffmanTable.Tabulates, HuffmanTable.WellFormed,
          CarriedNow, Workspace, Separate;
      NotInWorkspace();
      blockHeaderLen := 0;
      var header :- ParseBlockHeader(blockHeaderBuffer[..3], blockLimit);
      if header.PayloadSize() > block.Length {
        return Err(BlockScratchTooSmall(header.PayloadSize(), block.Length));
      }
      state := BlockPayloadState(header, 0);
      assert block[..0] == [];
      r := Ok(());
    }

    function ValidateFrameEnd(): Result<(), DecodeError>
      reads this, history
      requires currentHeader.Some?
    {
      FrameEnd(currentHeader.value, history.frameOutput)
    }

    method ReadBlock(input: seq<u8>, header: BlockHeader, start: nat)
      returns (r: Result<Option<InternalStep>, DecodeError>, rest: seq<u8>)
      requires Running() && pendingLen == 0 && state == BlockPayloadState(header, start)
      modifies Footprint()
      ensures Tidy()
      ensures
        match Consume(Env(), old(MachineNow()), input)
        case Err(e) => r == Err(e)
        case Ok(after) =>
          && Running() && MachineNow() == after && rest == input[Min(old(Missing(PhaseNow())), |input|)..]
          && r == Ok(if |input| < old(Missing(PhaseNow())) then Some(NeedInput) else None)
    {
      hide PhaseNow, MachineNow, Running, Sound, AfterBlock, Consume, Coherent, Missing, Tidy;
      RunningPayload(header, start);
      ConsumePayload(Env(), FrameNow(), header, block[..start], completedFrames, input);
      var filled: nat;
      filled, rest := CollectPayload(input, header, start);
      if filled < header.PayloadSize() {
        return Ok(Some(NeedInput)), rest;
      }
      var ended := EndBlock(header);
      r := if ended.Err? then Err(ended.error) else Ok(None);
    }

    lemma RunningPayload(header: BlockHeader, start: nat)
      requires Running() && pendingLen == 0 && state == BlockPayloadState(header, start)
      ensures Shaped() && currentHeader.Some? && start <= block.Length
      ensures Coherent(AtPayload(FrameNow(), header, block[..start]))
      ensures PhaseNow() == AtPayload(FrameNow(), header, block[..start])
      ensures MachineNow() == Machine(AtPayload(FrameNow(), header, block[..start]), [], completedFrames)
    {
    }

    method CollectPayload(input: seq<u8>, header: BlockHeader, start: nat) returns (filled: nat, rest: seq<u8>)
      requires Running() && pendingLen == 0 && state == BlockPayloadState(header, start)
      modifies `state, block
      ensures filled == start + Min(header.PayloadSize() - start, |input|) && rest == input[filled - start..]
      ensures Tidy() && Running() && state == BlockPayloadState(header, filled) && FrameNow() == old(FrameNow())
      ensures block[..filled] == old(block[..start]) + input[..filled - start]
      ensures MachineNow() == Machine(AtPayload(FrameNow(), header, block[..filled]), [], completedFrames)
    {
      hide BlockOutput, BlockEffect, Sound, AfterBlock, Consume, Coherent, Missing, Remembers, Placed, Behind,
          HuffmanTable.Tabulates, HuffmanTable.WellFormed;
      ConsumePayload(Env(), FrameNow(), header, block[..start], completedFrames, input);
      filled, rest := FillBuffer(block, header.PayloadSize(), start, input);
      state := BlockPayloadState(header, filled);
    }

    /** A block whose payload is complete: its output, and where it leads. */
    method EndBlock(header: BlockHeader) returns (r: Result<(), DecodeError>)
      requires Running() && pendingLen == 0 && state == BlockPayloadState(header, header.PayloadSize())
      modifies Footprint()
      ensures Tidy()
      ensures
        match AfterBlock(Env(), header, old(block[..header.PayloadSize()]), old(FrameNow()))
        case Err(e) => r == Err(e)
        case Ok(after) =>
          && r == Ok(()) && Running()
          && MachineNow() ==
               Machine(if !header.last then AtBlock(after, [])
                   else if after.header.hasChecksum then AtChecksum(after, []) else AtEnd,
                       after.carried.out[|old(history.out)|..], old(completedFrames))
    {
      hide BlockOutput, BlockEffect, AfterBlock, FrameEnd, Sound, Coherent, CarriedNow, PhaseNow, MachineNow, Running,
          FrameAgrees, PendingIsBehind, Tidy, Workspace;
      NotInWorkspace();
      PayloadIsReady(header);
      BlockEnds(Env(), header, block[..header.PayloadSize()], FrameNow());
      var _ :- ProcessBlock(header);
      if header.last && !currentHeader.value.hasChecksum {
        var _ :- ValidateFrameEnd();
      }
      LeaveBlock(header);
      r := Ok(());
    }

    lemma PayloadIsReady(header: BlockHeader)
      requires Running() && state == BlockPayloadState(header, header.PayloadSize())
      ensures Tidy() && history.Valid() && header.PayloadSize() <= block.Length && FrameAgrees() && currentHeader.Some?
      ensures !poisoned && headerLen == 0 && blockHeaderLen == 0
      ensures Coherent(AtPayload(FrameNow(), header, block[..header.PayloadSize()]))
    {
    }

    /** The state behind a decoded block. */
    method LeaveBlock(header: BlockHeader)
      requires Tidy() && history.Valid() && !poisoned && PendingIsBehind() && FrameAgrees()
      requires headerLen == 0 && blockHeaderLen == 0 && pendingLen <= |history.out|
      requires Coherent(AtBlock(FrameNow(), [])) && Coherent(AtChecksum(FrameNow(), [])) && Coherent(AtEnd)
      modifies `state
      ensures Running() && FrameNow() == old(FrameNow())
      ensures MachineNow() ==
                Machine(if !header.last then AtBlock(FrameNow(), [])
                    else if currentHeader.value.hasChecksum then AtChecksum(FrameNow(), []) else AtEnd,
                        history.out[|history.out| - pendingLen..], completedFrames)
    {
      hide Coherent, Remembers, Placed, Behind, HuffmanTable.Tabulates, HuffmanTable.WellFormed;
      state := if !header.last then BlockHeaderState
               else if currentHeader.value.hasChecksum then ChecksumState(0)
               else FrameDoneState(ZstandardFrame);
      assert blockHeaderBuffer[..0] == [] && checksumBuffer[..0] == [] && history.out[|history.out|..] == [];
    }

    method ReadChecksum(input: seq<u8>, start: nat)
      returns (r: Result<Option<InternalStep>, DecodeError>, rest: seq<u8>)
      requires Running() && pendingLen == 0 && state == ChecksumState(start)
      modifies this, checksumBuffer
      ensures Tidy()
      ensures
        match Consume(Env(), old(MachineNow()), input)
        case Err(e) => r == Err(e)
        case Ok(after) =>
          && Running() && MachineNow() == after && rest == input[Min(old(Missing(PhaseNow())), |input|)..]
          && r == Ok(if |input| < old(Missing(PhaseNow())) then Some(NeedInput) else None)
    {
      hide LittleEndian, Sound, Consume, Coherent, Missing, Remembers, Placed, HuffmanTable.Tabulates,
          HuffmanTable.WellFormed, CarriedNow, Workspace, Separate;
      NotInWorkspace();
      CollectingBuffers();
      ConsumeChecksum(Env(), FrameNow(), checksumBuffer[..start], completedFrames, input);
      var filled: nat;
      filled, rest := FillBuffer(checksumBuffer, 4, start, input);
      if filled < 4 {
        state := ChecksumState(filled);
        return Ok(Some(NeedInput)), rest;
      }
      var expected, actual := LittleEndian(checksumBuffer[..4]), xxh64(checksum) % 0x1_0000_0000;
      if actual != expected {
        return Err(ChecksumMismatch(expected, actual)), rest;
      }
      var valid := ValidateFrameEnd();
      if valid.Err? {
        return Err(valid.error), rest;
      }
      state := FrameDoneState(ZstandardFrame);
      r := Ok(None);
    }

    // ----- frames

    method ResetFrame()
      requires Tidy()
      modifies Workspace(), `pendingLen, `checksum
      ensures Tidy() && history.Valid() && pendingLen == 0 && checksum == history.out
      ensures CarriedNow()
          == Carried([], FRESH_OFFSETS, HuffmanTable.NoCode,
          Tables(FseTable.NO_TABLE, FseTable.NO_TABLE, FseTable.NO_TABLE))
    {
      hide Remembers, Placed, HuffmanTable.Tabulates, HuffmanTable.WellFormed;
      history.StartFrame();
      pendingLen := 0;
      offsets[0], offsets[1], offsets[2] := 1, 4, 8;
      checksum := [];
      ResetTables();
    }

    method ResetTables()
      requires Tidy()
      modifies huffman, huffman.scratch, literalLengths, offsetsTable, matchLengths
      ensures Tidy() && huffman.View() == HuffmanTable.NoCode
      ensures TablesNow() == Tables(FseTable.NO_TABLE, FseTable.NO_TABLE, FseTable.NO_TABLE)
    {
      hide Remembers, Placed, HuffmanTable.Tabulates, HuffmanTable.WellFormed;
      huffman.Reset();
      literalLengths.Reset();
      offsetsTable.Reset();
      matchLengths.Reset();
    }

    method BeginFrame(header: FrameHeader) returns (r: Result<(), DecodeError>)
      requires Tidy()
      modifies Workspace(), `currentHeader, `blockLimit, `pendingLen, `checksum
      ensures Tidy()
      ensures
        match StartFrame(header, Env())
        case Err(e) => r == Err(e)
        case Ok(frame) => r == Ok(()) && history.Valid() && pendingLen == 0 && FrameAgrees() && FrameNow() == frame
    {
      hide Remembers, Placed, HuffmanTable.Tabulates, HuffmanTable.WellFormed, CarriedNow, Separate, Tidy;
      if header.dictionaryId != 0 {
        return Err(UnsupportedDictionary(header.dictionaryId));
      }
      if header.windowSize > history.buffer.Length {
        return Err(HistoryTooSmall(header.windowSize, history.buffer.Length));
      }
      currentHeader := Some(header);
      blockLimit := Min(header.windowSize, MAX_BLOCK_SIZE);
      ResetFrame();
      r := Ok(());
    }

    /** Collects header bytes up to the next decision, or starts the frame whose header is complete. */
    method ReadHeader(input: seq<u8>) returns (r: Result<Option<InternalStep>, DecodeError>, rest: seq<u8>)
      requires Running() && pendingLen == 0 && state.HeaderState?
      modifies Footprint()
      ensures Tidy()
      ensures
        var missing := old(Missing(PhaseNow()));
        if missing > 0 then
          && Running() && rest == input[Min(missing, |input|)..]
          && MachineNow() == old(MachineNow()).(phase := Fed(old(PhaseNow()), input[..Min(missing, |input|)]))
          && r == Ok(if |input| < missing then Some(NeedInput) else None)
        else
          match Decide(Env(), old(PhaseNow()), old(completedFrames))
          case Err(e) => r == Err(e)
          case Ok(after) =>
            && Running() && rest == input && MachineNow() == after && r.Ok? && r.value.Some?
            && r.value.value.FrameStarted?
    {
      hide InspectFrame, StartFrame, Coherent, Missing, Fed, Decide, PhaseNow, MachineNow, Tidy;
      RunningHeader();
      HeaderChoices(Env(), headerBuffer[..headerLen], completedFrames);
      rest := input;
      var status := InspectFrame(headerBuffer[..headerLen]);
      match status {
        case Err(e) => r := Err(e);
        case Ok(NeedMore(minimum)) =>
          rest := CollectHeader(input, minimum);
          r := Ok(if headerLen < minimum then Some(NeedInput) else None);
        case Ok(Complete(header, _)) =>
          var accepted := AcceptHeader(header);
          r := if accepted.Err? then Err(accepted.error) else Ok(Some(FrameStarted(header)));
      }
    }

    lemma RunningHeader()
      requires Running() && pendingLen == 0 && state.HeaderState?
      ensures Tidy() && headerLen <= headerBuffer.Length && Coherent(AtHeader(headerBuffer[..headerLen]))
      ensures PhaseNow() == AtHeader(headerBuffer[..headerLen])
      ensures MachineNow() == Machine(AtHeader(headerBuffer[..headerLen]), [], completedFrames)
    {
    }

    method CollectHeader(input: seq<u8>, minimum: nat) returns (rest: seq<u8>)
      requires Running() && pendingLen == 0 && state.HeaderState? && headerLen < minimum <= MAX_FRAME_HEADER_SIZE
      requires Missing(AtHeader(headerBuffer[..headerLen])) == minimum - headerLen
      modifies `headerLen, headerBuffer
      ensures Tidy() && Running() && headerLen == old(headerLen) + Min(minimum - old(headerLen), |input|)
      ensures rest == input[headerLen - old(headerLen)..]
      ensures MachineNow() == old(MachineNow()).(phase := Fed(old(PhaseNow()), input[..headerLen - old(headerLen)]))
    {
      hide InspectFrame, Coherent, Missing, Fed, Remembers, Placed, Behind, HuffmanTable.Tabulates,
          HuffmanTable.WellFormed;
      HeaderFed(headerBuffer[..headerLen], input[..Min(minimum - headerLen, |input|)]);
      headerLen, rest := FillBuffer(headerBuffer, minimum, headerLen, input);
    }

    /** Starts the frame that a complete header announces. */
    method AcceptHeader(header: StreamHeader) returns (r: Result<(), DecodeError>)
      requires Tidy() && Running() && pendingLen == 0 && state.HeaderState?
      requires header.Skippable? ==> Coherent(AtSkip(header.size))
      requires header.Zstandard? && StartFrame(header.frame, Env()).Ok?
          ==> Coherent(AtBlock(StartFrame(header.frame, Env()).value, []))
      modifies Footprint()
      ensures Tidy()
      ensures
        match header
        case Skippable(_, size) =>
          && r == Ok(()) && Running()
          && MachineNow() == Machine(AtSkip(size), [], old(completedFrames))
        case Zstandard(frame) =>
          match StartFrame(frame, Env())
          case Err(e) => r == Err(e)
          case Ok(begun) =>
            && r == Ok(()) && Running()
            && MachineNow() == Machine(AtBlock(begun, []), [], old(completedFrames))
    {
      hide StartFrame, Coherent, Remembers, Placed, Behind, HuffmanTable.Tabulates, HuffmanTable.WellFormed,
          CarriedNow, PhaseNow, MachineNow, Workspace;
      NotInWorkspace();
      match header {
        case Skippable(magic, size) =>
          EnterSkip(magic, size);
        case Zstandard(frame) =>
          headerLen := 0;
          var _ :- BeginFrame(frame);
          EnterBlocks();
      }
      r := Ok(());
    }

    method EnterSkip(magic: nat, size: nat)
      requires Running() && pendingLen == 0 && state.HeaderState? && Coherent(AtSkip(size))
      modifies `state, `headerLen
      ensures Running() && MachineNow() == Machine(AtSkip(size), [], completedFrames)
    {
      hide Coherent, Remembers, Placed, Behind, HuffmanTable.Tabulates, HuffmanTable.WellFormed;
      headerLen := 0;
      state := SkippableState(magic, size, size);
    }

    method EnterBlocks()
      requires Tidy() && history.Valid() && !poisoned && pendingLen == 0 && FrameAgrees()
      requires headerLen == 0 && blockHeaderLen == 0 && Coherent(AtBlock(FrameNow(), []))
      modifies `state
      ensures Running() && FrameNow() == old(FrameNow())
      ensures MachineNow() == Machine(AtBlock(FrameNow(), []), [], completedFrames)
    {
      hide Coherent, Remembers, Placed, Behind, HuffmanTable.Tabulates, HuffmanTable.WellFormed;
      state := BlockHeaderState;
      assert blockHeaderBuffer[..0] == [];
    }

    // ----- the step function

    method SkipInput(input: seq<u8>, magic: nat, size: nat, remaining: nat)
      returns (step: Option<InternalStep>, rest: seq<u8>)
      requires Running() && pendingLen == 0 && state == SkippableState(magic, size, remaining)
      modifies `state
      ensures Tidy() && Running() && pendingLen == 0
      ensures Consume(Env(), old(MachineNow()), input) == Ok(MachineNow())
      ensures old(Missing(PhaseNow())) == remaining && rest == input[Min(remaining, |input|)..]
      ensures step == if |input| < remaining then Some(NeedInput) else None
    {
      hide Consume, Remembers, Placed, Behind, HuffmanTable.Tabulates, HuffmanTable.WellFormed;
      ConsumeSkip(Env(), remaining, completedFrames, input);
      var amount := Min(remaining, |input|);
      rest := input[amount..];
      if remaining - amount == 0 {
        state := FrameDoneState(SkippableFrame(magic, size));
        step := None;
      } else {
        state := SkippableState(magic, size, remaining - amount);
        step := Some(NeedInput);
      }
    }

    method CompleteFrame(kind: FrameKind) returns (r: Result<Option<InternalStep>, DecodeError>)
      requires Running() && pendingLen == 0 && state == FrameDoneState(kind)
      modifies this
      ensures Tidy()
      ensures old(PhaseNow()) == AtEnd && Missing(AtEnd) == 0
      ensures
        match Decide(Env(), AtEnd, old(completedFrames))
        case Err(e) => r == Err(e)
        case Ok(after) =>
          && Running() && pendingLen == 0 && r == Ok(Some(FrameFinished(kind))) && MachineNow() == after
          && headerLen == 0 && state == HeaderState
    {
      hide Remembers, Placed, Behind, HuffmanTable.Tabulates, HuffmanTable.WellFormed;
      EmptyHeaderIsCoherent();
      if completedFrames == U64_MAX {
        return Err(ArithmeticOverflow);
      }
      completedFrames := completedFrames + 1;
      currentHeader := None;
      state := HeaderState;
      assert headerBuffer[..0] == [];
      r := Ok(Some(FrameFinished(kind)));
    }

    /** One state's worth of work: `None` is a transition that the caller does not see. */
    method Advance(input: seq<u8>) returns (r: Result<Option<InternalStep>, DecodeError>, rest: seq<u8>)
      requires Running() && pendingLen == 0
      modifies Footprint()
      ensures Tidy()
      ensures
        match r
        case Err(e) => Fails(Env(), old(MachineNow()), input, e)
        case Ok(step) =>
          !(step.Some? && step.value.Output?) && Running()
              && Advanced(Env(), old(MachineNow()), input, MachineNow(), rest, EventOf(step))
    {
      hide Advanced, Fails, Consume, Decide, Fed, Coherent, Missing, PhaseNow, MachineNow, Tidy;
      ghost var env, before := Env(), MachineNow();
      MachineFacts();
      match state {
        case HeaderState =>
          if Missing(before.phase) > 0 {
            HeaderGrows(env, before, input);
          } else {
            HeaderStarts(env, before, input);
          }
          r, rest := ReadHeader(input);
        case SkippableState(magic, size, remaining) =>
          ConsumeStep(env, before, input);
          var step: Option<InternalStep>;
          step, rest := SkipInput(input, magic, size, remaining);
          r := Ok(step);
        case BlockHeaderState =>
          ConsumeStep(env, before, input);
          r, rest := ReadBlockHeader(input);
        case BlockPayloadState(header, filled) =>
          ConsumeStep(env, before, input);
          r, rest := ReadBlock(input, header, filled);
        case ChecksumState(filled) =>
          ConsumeStep(env, before, input);
          r, rest := ReadChecksum(input, filled);
        case FrameDoneState(kind) =>
          FrameEnds(env, before, input);
          rest := input;
          r := CompleteFrame(kind);
      }
    }

    lemma RunningIsValid()
      requires Running() && Settled(PhaseNow())
      ensures Valid()
    {
    }

    method Poison()
      requires Tidy()
      modifies `poisoned
      ensures Valid() && poisoned
    {
      poisoned := true;
    }

    lemma MachineFacts()
      requires Running()
      ensures Tidy() && MachineNow().phase == PhaseNow() && MachineNow().completed == completedFrames
          && Coherent(PhaseNow())
      ensures |MachineNow().pending| == pendingLen && (pendingLen == 0 ==> MachineNow().pending == [])
      ensures
        match state
        case HeaderState => PhaseNow().AtHeader?
        case SkippableState(_, _, _) => PhaseNow().AtSkip?
        case BlockHeaderState => PhaseNow().AtBlock? && Missing(PhaseNow()) > 0
        case BlockPayloadState(_, _) => PhaseNow().AtPayload?
        case ChecksumState(_) => PhaseNow().AtChecksum?
        case FrameDoneState(_) => PhaseNow().AtEnd? && Missing(PhaseNow()) == 0
    {
    }

    /** The next contiguous stretch of the ring that the caller has not seen. */
    method PendingOutput() returns (step: InternalStep)
      requires Running() && pendingLen > 0
      modifies `pendingStart, `pendingLen
      ensures Running() && PhaseNow() == old(PhaseNow()) && MachineNow().completed == old(MachineNow()).completed
      ensures step.Output? && step.length > 0 && step.start + step.length <= history.buffer.Length
      ensures old(MachineNow()).pending == history.buffer[step.start..step.start + step.length] + MachineNow().pending
      ensures Pieces() < old(Pieces())
    {
      hide Coherent, Remembers, Placed, PhaseNow, Separate, Tidy, HuffmanTable.Tabulates, HuffmanTable.WellFormed;
      var start, capacity := pendingStart, history.buffer.Length;
      var length := Min(pendingLen, capacity - start);
      PendingPiece(history.buffer[..], history.position, history.out, start, pendingLen, length);
      Deliver(length);
      step := Output(start, length);
    }

    /** The caller has seen `length` bytes more. */
    method Deliver(length: nat)
      requires Running() && 0 < length <= pendingLen && pendingStart + length <= history.buffer.Length
      requires length < pendingLen ==>
        (pendingStart + length) % history.buffer.Length
            == Behind(history.position, pendingLen - length, history.buffer.Length)
      modifies `pendingStart, `pendingLen
      ensures Running() && PhaseNow() == old(PhaseNow()) && pendingLen == old(pendingLen) - length
      ensures pendingStart == (old(pendingStart) + length) % history.buffer.Length
    {
      hide Coherent, Remembers, Placed, Behind, HuffmanTable.Tabulates, HuffmanTable.WellFormed;
      pendingStart := (pendingStart + length) % history.buffer.Length;
      pendingLen := pendingLen - length;
    }

    method DecodeInner(input: seq<u8>) returns (r: Result<(nat, InternalStep), DecodeError>)
      requires Running() && Settled(PhaseNow())
      modifies Footprint()
      ensures Tidy()
      ensures
        match r
        case Err(e) => Fails(Env(), old(MachineNow()), input, e)
        case Ok((consumed, step)) =>
          && Running() && consumed <= |input|
          && (step.Output? ==> step.start + step.length <= history.buffer.Length)
          && Decoded(Env(), old(MachineNow()), input, BytesOf(step), MachineNow(), input[consumed..],
              VisibleEvent(step))
          && (step.Output? ==> Pieces() <= 1) && (old(Pieces()) > 0 ==> step.Output? && Pieces() < old(Pieces()))
    {
      hide Reached, Decoded, Advanced, Fails, Coherent, Missing, Rank, Settled, PhaseNow, MachineNow, Running, Shaped,
          Tidy, Workspace, Footprint;
      InFootprint();
      ghost var env, before := Env(), MachineNow();
      MachineFacts();
      ReachSelf(env, before, input);
      var rest := input;
      while true
        invariant Running() && Tidy() && Coherent(before.phase) && Settled(before.phase) && Env() == env
        invariant Reached(env, before, input, MachineNow(), rest)
        invariant old(Pieces()) > 0 ==> Pieces() == old(Pieces())
        decreases |rest|, Rank(PhaseNow())
      {
        MachineFacts();
        ghost var now, left := MachineNow(), rest;
        ReachedSuffix(env, before, input, now, rest);
        if pendingLen != 0 {
          var output := PendingOutput();
          MachineFacts();
          ReachDelivery(env, before, input, now, rest, BytesOf(output), MachineNow().pending);
          return Ok((|input| - |rest|, output));
        }
        var advanced: Result<Option<InternalStep>, DecodeError>;
        advanced, rest := Advance(rest);
        match advanced {
          case Err(e) =>
            ReachFailure(env, before, input, now, left, e);
            return Err(e);
          case Ok(None) =>
            MachineFacts();
            ReachMore(env, before, input, now, left, MachineNow(), rest);
            MoveShrinks(env, now, left, MachineNow(), rest);
          case Ok(Some(step)) =>
            MachineFacts();
            ReachEvent(env, before, input, now, left, MachineNow(), rest, VisibleEvent(step));
            DecodedSuffix(env, before, input, [], MachineNow(), rest, VisibleEvent(step));
            return Ok((|input| - |rest|, step));
        }
      }
    }

    /** The bytes that a step hands out. */
    ghost function BytesOf(step: InternalStep): seq<u8>
      reads history.buffer
      requires step.Output? ==> step.start + step.length <= history.buffer.Length
    {
      if step.Output? then history.buffer[step.start..step.start + step.length] else []
    }

    // ----- the public operations

    ghost predicate Valid()
      reads Footprint()
      ensures Valid() ==> Tidy() && (!poisoned ==> Running() && Settled(PhaseNow()))
    {
      Tidy() && (!poisoned ==> Running() && Settled(PhaseNow()))
    }

    /** One visible step. An error poisons the decoder. */
    method Decode(input: seq<u8>) returns (r: Result<DecodeStep, DecodeError>)
      requires Valid()
      modifies Footprint()
      ensures Valid()
      ensures old(poisoned) ==> poisoned && r == Err(DecoderPoisoned)
      ensures !old(poisoned) ==>
        match r
        case Err(e) => poisoned && Fails(Env(), old(MachineNow()), input, e)
        case Ok(d) =>
          && !poisoned && d.consumed <= |input|
          && Decoded(Env(), old(MachineNow()), input, d.bytes, MachineNow(), input[d.consumed..], VisibleEvent(d.step))
          && (d.step.Output? ==> Pieces() <= 1) && (old(Pieces()) > 0 ==> d.step.Output? && Pieces() < old(Pieces()))
    {
      hide Decoded, Fails, Coherent, Missing, PhaseNow, MachineNow, Running, Shaped, Tidy, Settled, Valid;
      if poisoned {
        return Err(DecoderPoisoned);
      }
      ghost var before := MachineNow();
      MachineFacts();
      var inner := DecodeInner(input);
      match inner {
        case Err(e) =>
          Poison();
          r := Err(e);
        case Ok((consumed, step)) =>
          MachineFacts();
          DecodedSettles(Env(), before, input, BytesOf(step), MachineNow(), input[consumed..], VisibleEvent(step));
          RunningIsValid();
          r := Ok(DecodeStep(consumed, step,
              if step.Output? then history.buffer[step.start..step.start + step.length] else []));
      }
    }

    /** Feeds a fragment, and passes on what it decodes to. The complaints about stalling cannot occur. */
    method Push(input: seq<u8>) returns (r: Result<(), StreamError>, output: seq<u8>)
      requires Valid()
      modifies Footprint()
      ensures Valid()
      ensures old(poisoned) ==> poisoned && output == [] && r == if input == [] then Ok(())
          else Err(StreamError.Decode(DecoderPoisoned))
      ensures !old(poisoned) ==>
        match r
        case Ok(_) => !poisoned && Simulates(Env(), old(MachineNow()), input, output, MachineNow(), [])
        case Err(e) => poisoned && e.Decode? && FailsAfter(Env(), old(MachineNow()), input, output, e.error)
    {
      hide Decoded, Simulates, Fails, FailsAfter, Coherent, Missing, Rank, PhaseNow, MachineNow, Running, Shaped, Tidy,
          Settled, Valid;
      output := [];
      var rest := input;
      var idleSteps := 0;
      if poisoned {
        return if input == [] then Ok(()) else Err(StreamError.Decode(DecoderPoisoned)), output;
      }
      ghost var env, before := Env(), MachineNow();
      MachineFacts();
      NoStep(env, before, input);
      while |rest| > 0
        invariant Valid() && !poisoned && Env() == env
        invariant Simulates(env, before, input, output, MachineNow(), rest)
        invariant idleSteps > 0 ==> idleSteps == 1 && MachineNow().phase == AtHeader([]) && MachineNow().pending == []
        decreases |rest|, Rank(PhaseNow()), pendingLen
      {
        MachineFacts();
        ghost var now, left := MachineNow(), rest;
        var decoded := Decode(rest);
        if decoded.Err? {
          DeliverThenFail(env, before, input, output, now, left, decoded.error);
          return Err(StreamError.Decode(decoded.error)), output;
        }
        var d := decoded.value;
        MachineFacts();
        CallShrinks(env, now, left, d.bytes, MachineNow(), left[d.consumed..], VisibleEvent(d.step));
        DeliveringSteps(env, before, input, output, now, left, d.bytes, MachineNow(), left[d.consumed..]);
        output := output + d.bytes;
        rest := rest[d.consumed..];
        assert !(d.step.NeedInput? && |rest| > 0);
        if d.consumed != 0 || d.bytes != [] {
          idleSteps := 0;
        } else {
          idleSteps := idleSteps + 1;
          assert idleSteps <= 16;
        }
      }
      assert rest == [];
      r := Ok(());
    }

    /** Whether the stream may end here. */
    function Finish(): Result<(), DecodeError>
      reads this
    {
      if poisoned then Err(DecoderPoisoned)
      else if pendingLen != 0 || headerLen != 0 || completedFrames == 0 then Err(UnexpectedEof)
      else if state.HeaderState? || state.FrameDoneState? then Ok(())
      else Err(UnexpectedEof)
    }

    /** For a decoder that has delivered everything and waits for more, this is what is left of the outcome. */
    lemma FinishJudges()
      requires Running() && pendingLen == 0 && Missing(PhaseNow()) > 0
      ensures Future(Env(), MachineNow(), [])
          == Outcome([], if Finish().Ok? then Accepted else Rejected(Finish().error))
    {
      hide Remembers, Placed, Behind, HuffmanTable.Tabulates, HuffmanTable.WellFormed, Coherent, Missing, Future;
      MachineFacts();
      AtEndOfInput(Env(), MachineNow());
      assert |headerBuffer[..headerLen]| == headerLen;
      assert headerBuffer[..0] == [];
    }

    /** Hands out what is still pending, and judges the stream: exactly the rest of the one-shot outcome. */
    method FinishWith() returns (r: Result<(), StreamError>, output: seq<u8>)
      requires Valid()
      modifies Footprint()
      ensures Valid()
      ensures old(poisoned) ==> output == [] && r == Err(StreamError.Decode(DecoderPoisoned))
      ensures !old(poisoned) ==>
        match r
        case Ok(_) => Future(Env(), old(MachineNow()), []) == Outcome(output, Accepted)
        case Err(e) => e.Decode? && Future(Env(), old(MachineNow()), []) == Outcome(output, Rejected(e.error))
    {
      hide Decoded, Simulates, Fails, FailsAfter, Coherent, Missing, Rank, PhaseNow, MachineNow, Running, Shaped, Tidy,
          Settled, Valid, Future;
      output := [];
      if poisoned {
        return Err(StreamError.Decode(DecoderPoisoned)), output;
      }
      ghost var env, before := Env(), MachineNow();
      MachineFacts();
      NoStep(env, before, []);
      var idleSteps := 0;
      while true
        invariant Valid() && !poisoned && Env() == env
        invariant Simulates(env, before, [], output, MachineNow(), [])
        invariant idleSteps > 0 ==> idleSteps == 1 && MachineNow().phase == AtHeader([]) && MachineNow().pending == []
        decreases Rank(PhaseNow()), pendingLen
      {
        MachineFacts();
        ghost var now := MachineNow();
        var nothing: seq<u8> := [];
        var decoded := Decode(nothing);
        if decoded.Err? {
          DeliverThenFail(env, before, [], output, now, [], decoded.error);
          FailsAtEnd(env, before, output, decoded.error);
          return Err(StreamError.Decode(decoded.error)), output;
        }
        var d := decoded.value;
        assert nothing[d.consumed..] == [];
        MachineFacts();
        CallShrinks(env, now, [], d.bytes, MachineNow(), [], VisibleEvent(d.step));
        DeliveringSteps(env, before, [], output, now, [], d.bytes, MachineNow(), []);
        output := output + d.bytes;
        if d.step.NeedInput? {
          break;
        }
        if d.bytes != [] {
          idleSteps := 0;
        } else {
          idleSteps := idleSteps + 1;
          assert idleSteps <= 16;
        }
      }
      LastFragment(env, before, [], output, MachineNow());
      MachineFacts();
      FinishJudges();
      var finished := Finish();
      r := if finished.Err? then Err(StreamError.Decode(finished.error)) else Ok(());
    }

    /** Back to the start of a stream, even after an error. */
    method Reset()
      requires Valid()
      modifies Footprint()
      ensures Valid() && !poisoned && MachineNow() == START
    {
      hide Remembers, Placed, Behind, HuffmanTable.Tabulates, HuffmanTable.WellFormed, CarriedNow, PhaseNow,
          MachineNow, Running, Shaped, Settled, Valid, Separate, Tidy, Workspace;
      NotInWorkspace();
      state := HeaderState;
      poisoned := false;
      completedFrames := 0;
      headerLen := 0;
      blockHeaderLen := 0;
      currentHeader := None;
      ResetFrame();
      StartIsRunning();
    }

    lemma StartIsRunning()
      requires Tidy() && history.Valid() && !poisoned && state.HeaderState?
      requires headerLen == 0 && blockHeaderLen == 0 && pendingLen == 0 && completedFrames == 0
      ensures Valid() && MachineNow() == START
    {
      hide Remembers, Placed, Behind, HuffmanTable.Tabulates, HuffmanTable.WellFormed, CarriedNow;
      EmptyHeaderIsCoherent();
      assert headerBuffer[..0] == [];
    }

    /** The whole stream, in fragments of any sizes: the bytes delivered and the verdict
        are those of decoding the concatenation at once. */
    method DecodeFragments(fragments: seq<seq<u8>>) returns (outcome: Outcome)
      requires Valid() && !poisoned && MachineNow() == START
      modifies Footprint()
      ensures Valid()
      ensures outcome == DecodeFrames(Env(), Flatten(fragments), 0)
    {
      hide Simulates, FailsAfter, Coherent, PhaseNow, MachineNow, Running, Shaped, Tidy, Settled, Valid, Future;
      ghost var env := Env();
      assert fragments[..0] == [];
      assert MachineNow() == START;
      FacingStart(env, Flatten(fragments));
      StartStep(env);
      var output: seq<u8> := [];
      for i := 0 to |fragments|
        invariant Valid() && !poisoned && Env() == env
        invariant Simulates(env, START, Flatten(fragments[..i]), output, MachineNow(), [])
      {
        ghost var now := MachineNow();
        var pushed, more := Push(fragments[i]);
        FlattenNext(fragments, i);
        if pushed.Err? {
          FailingFragment(env, START, Flatten(fragments[..i]), output, now, fragments[i], more, pushed.error.error,
                          Flatten(fragments[i + 1..]));
          return Outcome(output + more, Rejected(pushed.error.error));
        }
        NextFragment(env, START, Flatten(fragments[..i]), output, now, fragments[i], more, MachineNow());
        output := output + more;
      }
      assert fragments[..|fragments|] == fragments;
      LastFragment(env, START, Flatten(fragments), output, MachineNow());
      var finished, more := FinishWith();
      outcome := Outcome(output + more, if finished.Ok? then Accepted else Rejected(finished.error.error));
    }
  }

  /** The Huffman table, with an FSE table for its weights, and the three tables of sequences. */
  method NewTables(weights: array<FseTableSpec.Entry>, literalLengths: array<FseTableSpec.Entry>,
                   offsets: array<FseTableSpec.Entry>, matchLengths: array<FseTableSpec.Entry>,
                       huffman: array<HuffmanTable.Entry>)
    returns (tree: HuffmanTable.Table, ll: FseTable.Table, of: FseTable.Table, ml: FseTable.Table)
    requires huffman.Length >= HUFFMAN_ENTRIES
    requires weights.Length >= 512 && literalLengths.Length >= 512 && offsets.Length >= 512
        && matchLengths.Length >= 512
    ensures fresh(tree) && fresh(tree.scratch) && fresh(ll) && fresh(of) && fresh(ml)
    ensures tree.Valid() && ll.Valid() && of.Valid() && ml.Valid()
    ensures tree.scratch != ll && tree.scratch != of && tree.scratch != ml && ll != of && ll != ml && of != ml
    ensures tree.entries == huffman && tree.scratch.entries == weights
    ensures ll.entries == literalLengths && of.entries == offsets && ml.entries == matchLengths
  {
    var scratch := new FseTable.Table(weights);
    tree := new HuffmanTable.Table(huffman, scratch);
    ll := new FseTable.Table(literalLengths);
    of := new FseTable.Table(offsets);
    ml := new FseTable.Table(matchLengths);
  }

  lemma DefaultSizes()
    ensures |LL_DEFAULT| == 36 && |OF_DEFAULT| == 32 && |ML_DEFAULT| == 53
  {
  }

  /** A stretch of the ring that ends with the last write, cut where the ring wraps. */
  lemma RingSlices(buffer: seq<u8>, position: nat, out: seq<u8>, start: nat, length: nat, first: nat)
    requires Remembers(buffer, position, out) && position < |buffer| && 0 < length <= |buffer| && length <= |out|
    requires start == Behind(position, length, |buffer|) && first == Min(length, |buffer| - start)
    ensures length - first <= |buffer| && start + first <= |buffer|
    ensures buffer[start..start + first] + buffer[..length - first] == out[|out| - length..]
  {
    var slices, last := buffer[start..start + first] + buffer[..length - first], out[|out| - length..];
    forall k | 0 <= k < length
      ensures slices[k] == last[k]
    {
      assert buffer[Behind(position, length - k, |buffer|)] == out[|out| - (length - k)];
    }
  }

  /** Copies as much of the input as is missing up to `limit`. */
  method FillBuffer(buffer: array<u8>, limit: nat, start: nat, input: seq<u8>) returns (filled: nat, rest: seq<u8>)
    requires start <= limit <= buffer.Length
    modifies buffer
    ensures filled == start + Min(limit - start, |input|)
    ensures buffer[..filled] == old(buffer[..start]) + input[..filled - start]
    ensures rest == input[filled - start..]
  {
    var amount := Min(limit - start, |input|);
    for i := 0 to amount
      invariant forall k :: 0 <= k < start ==> buffer[k] == old(buffer[k])
      invariant forall k :: 0 <= k < i ==> buffer[start + k] == input[k]
    {
      buffer[start + i] := input[i];
    }
    filled, rest := start + amount, input[amount..];
    forall k | 0 <= k < filled
      ensures buffer[..filled][k] == (old(buffer[..start]) + input[..filled - start])[k]
    {
      assert k >= start ==> buffer[start + (k - start)] == input[k - start];
    }
  }

  lemma ConsumeBlock(env: Environment, frame: Frame, collected: seq<u8>, completed: nat, input: seq<u8>)
    requires Coherent(AtBlock(frame, collected))
    ensures
      var m := Machine(AtBlock(frame, collected), [], completed);
      var bytes := collected + input[..Min(3 - |collected|, |input|)];
      && Missing(m.phase) == 3 - |collected|
      && Coherent(AtBlock(frame, bytes))
      && Consume(env, m, input) ==
           if |bytes| < 3 then Ok(m.(phase := AtBlock(frame, bytes)))
           else
             var header :- AcceptBlock(env, bytes, frame);
             Ok(Machine(AtPayload(frame, header, []), [], completed))
    ensures Sound(frame)
  {
    hide AcceptBlock, Sound;
  }

  lemma ConsumePayload(env: Environment, frame: Frame, header: BlockHeader, collected: seq<u8>, completed: nat,
      input: seq<u8>)
    requires Coherent(AtPayload(frame, header, collected))
    ensures
      var m := Machine(AtPayload(frame, header, collected), [], completed);
      var size := header.PayloadSize();
      var bytes := collected + input[..Min(size - |collected|, |input|)];
      && Missing(m.phase) == size - |collected|
      && Coherent(AtPayload(frame, header, bytes))
      && Consume(env, m, input) ==
           if |bytes| < size then Ok(m.(phase := AtPayload(frame, header, bytes)))
           else
             var after :- AfterBlock(env, header, bytes, frame);
             Ok(Machine(if !header.last then AtBlock(after, [])
                 else if frame.header.hasChecksum then AtChecksum(after, []) else AtEnd,
                        after.carried.out[|frame.carried.out|..], completed))
    ensures Consume(env, Machine(AtPayload(frame, header, collected), [], completed), input).Ok? ==>
              Coherent(Consume(env, Machine(AtPayload(frame, header, collected), [], completed), input).value.phase)
    ensures Sound(frame)
  {
    hide AfterBlock, Sound;
  }

  lemma ConsumeChecksum(env: Environment, frame: Frame, collected: seq<u8>, completed: nat, input: seq<u8>)
    requires Coherent(AtChecksum(frame, collected))
    ensures
      var m := Machine(AtChecksum(frame, collected), [], completed);
      var bytes := collected + input[..Min(4 - |collected|, |input|)];
      && Missing(m.phase) == 4 - |collected|
      && Coherent(AtChecksum(frame, bytes)) && Coherent(AtEnd)
      && Consume(env, m, input) ==
           if |bytes| < 4 then Ok(m.(phase := AtChecksum(frame, bytes)))
           else
             var _ :- CheckFrame(env, bytes, frame);
             Ok(Machine(AtEnd, [], completed))
  {
    hide CheckFrame, Sound;
  }

  /** What a header phase comes to, case by case. */
  lemma HeaderChoices(env: Environment, bytes: seq<u8>, completed: nat)
    requires Coherent(AtHeader(bytes))
    ensures
      match InspectFrame(bytes)
      case Err(e) => Missing(AtHeader(bytes)) == 0 && Decide(env, AtHeader(bytes), completed) == Err(e)
      case Ok(NeedMore(minimum)) =>
        && Missing(AtHeader(bytes)) == minimum - |bytes|
        && |bytes| < minimum <= MAX_FRAME_HEADER_SIZE
      case Ok(Complete(Skippable(_, size), _)) =>
        && Missing(AtHeader(bytes)) == 0 && Coherent(AtSkip(size))
        && Decide(env, AtHeader(bytes), completed) == Ok(Machine(AtSkip(size), [], completed))
      case Ok(Complete(Zstandard(header), _)) =>
        && Missing(AtHeader(bytes)) == 0
        && match StartFrame(header, env)
           case Err(e) => Decide(env, AtHeader(bytes), completed) == Err(e)
           case Ok(frame) =>
             && Coherent(AtBlock(frame, []))
             && Decide(env, AtHeader(bytes), completed) == Ok(Machine(AtBlock(frame, []), [], completed))
  {
    hide InspectFrame, StartFrame, Sound;
    NeedMoreIsMore(bytes);
  }

  lemma NeedMoreIsMore(bytes: seq<u8>)
    ensures InspectFrame(bytes).Ok? && InspectFrame(bytes).value.NeedMore? ==>
              |bytes| < InspectFrame(bytes).value.minimum <= MAX_FRAME_HEADER_SIZE
  {
  }

  lemma HeaderFed(bytes: seq<u8>, more: seq<u8>)
    requires Coherent(AtHeader(bytes)) && |more| <= Missing(AtHeader(bytes))
    ensures Fed(AtHeader(bytes), more) == AtHeader(bytes + more) && Coherent(AtHeader(bytes + more))
  {
    hide InspectFrame;
    FeedingIsCoherent(AtHeader(bytes), more);
  }

  lemma BlockEnds(env: Environment, header: BlockHeader, payload: seq<u8>, frame: Frame)
    requires Coherent(AtPayload(frame, header, payload)) && |payload| == header.PayloadSize()
    ensures Sound(frame)
    ensures
      match BlockOutput(header, payload, frame.carried, frame.Bounded(env))
      case Err(e) => AfterBlock(env, header, payload, frame) == Err(e)
      case Ok(carried) =>
        var end, after := FrameEnd(frame.header, |carried.out|), frame.(carried := carried);
        if header.last && !frame.header.hasChecksum && end.Err? then
            AfterBlock(env, header, payload, frame) == Err(end.error)
        else
          && AfterBlock(env, header, payload, frame) == Ok(after)
          && Coherent(AtBlock(after, [])) && Coherent(AtChecksum(after, [])) && Coherent(AtEnd)
  {
    hide BlockOutput;
  }

  function EventOf(step: Option<InternalStep>): Event
    requires !(step.Some? && step.value.Output?)
  {
    match step
    case None => Move
    case Some(NeedInput) => Wait
    case Some(FrameStarted(_)) => Started
    case Some(FrameFinished(_)) => Finished
  }

  lemma ConsumeSkip(env: Environment, remaining: nat, completed: nat, input: seq<u8>)
    ensures
      var m := Machine(AtSkip(remaining), [], completed);
      && Coherent(m.phase) && Missing(m.phase) == remaining && Coherent(AtEnd)
      && Consume(env, m, input) ==
           Ok(Machine(if |input| < remaining then AtSkip(remaining - |input|) else AtEnd, [], completed))
  {
  }

  function VisibleEvent(step: InternalStep): Event
  {
    match step
    case NeedInput => Wait
    case FrameStarted(_) => Started
    case FrameFinished(_) => Finished
    case Output(_, _) => Delivered
  }

  lemma ReachedSuffix(env: Environment, before: Machine, input: seq<u8>, now: Machine, rest: seq<u8>)
    requires Reached(env, before, input, now, rest)
    ensures |rest| <= |input| && rest == input[|input| - |rest|..]
  {
  }

  lemma DecodedSuffix(env: Environment, before: Machine, input: seq<u8>, bytes: seq<u8>, after: Machine, rest: seq<u8>,
      event: Event)
    requires Decoded(env, before, input, bytes, after, rest, event)
    ensures |rest| <= |input| && rest == input[|input| - |rest|..]
  {
  }

  lemma MoveShrinks(env: Environment, now: Machine, left: seq<u8>, after: Machine, rest: seq<u8>)
    requires Advanced(env, now, left, after, rest, Move)
    ensures |rest| < |left| || (|rest| == |left| && Rank(after.phase) < Rank(now.phase))
  {
  }

  /** The first contiguous piece of the pending bytes, and where the others begin. */
  lemma PendingPiece(buffer: seq<u8>, position: nat, out: seq<u8>, start: nat, pending: nat, length: nat)
    requires Remembers(buffer, position, out) && position < |buffer| && 0 < pending <= |buffer| && pending <= |out|
    requires start == Behind(position, pending, |buffer|) && length == Min(pending, |buffer| - start)
    ensures length > 0
    ensures out[|out| - pending..] == buffer[start..start + length] + out[|out| - (pending - length)..]
    ensures length < pending ==> (start + length) % |buffer| == Behind(position, pending - length, |buffer|)
    ensures out[|out|..] == []
  {
    RingSlices(buffer, position, out, start, pending, length);
    var whole, last := out[|out| - pending..], out[|out| - (pending - length)..];
    assert whole[length..] == last;
    assert whole[..length] == buffer[start..start + length];
    if length < pending {
      assert start + length == |buffer|;
      DivModUnique(start + length, |buffer|, 1, 0);
    }
  }

  lemma DecodedSettles(env: Environment, before: Machine, input: seq<u8>, bytes: seq<u8>, after: Machine, rest: seq<u8>,
      event: Event)
    requires Decoded(env, before, input, bytes, after, rest, event)
    ensures Coherent(after.phase) && Settled(after.phase)
  {
  }

  /** What a call leaves: less input, a phase nearer to needing some, or less to deliver. */
  lemma CallShrinks(env: Environment, before: Machine, input: seq<u8>, bytes: seq<u8>, after: Machine, rest: seq<u8>,
      event: Event)
    requires Coherent(before.phase) && Settled(before.phase) && Decoded(env, before, input, bytes, after, rest, event)
    ensures Simulates(env, before, input, bytes, after, rest) && Coherent(after.phase)
    ensures event == Wait ==> rest == [] && after.pending == [] && Missing(after.phase) > 0 && bytes == []
    ensures event != Wait ==>
      || |rest| < |input|
      || (|rest| == |input| && Rank(after.phase) < Rank(before.phase))
      || (|rest| == |input| && after.phase == before.phase && |after.pending| < |before.pending|)
    ensures |rest| == |input| && bytes == [] && event != Wait
        ==> after.phase == AtHeader([]) && after.pending == [] && !before.phase.AtHeader?
    ensures input != [] && before.phase.AtHeader? && before.pending == [] ==> |rest| < |input|
  {
    hide Simulates, Coherent, Missing;
    DecodedSettles(env, before, input, bytes, after, rest, event);
  }

  lemma FailsAtEnd(env: Environment, before: Machine, delivered: seq<u8>, error: DecodeError)
    requires FailsAfter(env, before, [], delivered, error)
    ensures Coherent(before.phase) && Future(env, before, []) == Outcome(delivered, Rejected(error))
  {
    hide Future, Coherent;
    var nothing: seq<u8> := [];
    assert nothing + nothing == nothing && delivered + nothing == delivered;
    assert Future(env, before, nothing + nothing) == Stop(error).After(delivered);
  }

  // ----- fragments

  lemma FacingStart(env: Environment, input: seq<u8>)
    ensures Coherent(START.phase) && Future(env, START, input) == DecodeFrames(env, input, 0)
  {
    EmptyHeaderIsCoherent();
    assert [] + input == input;
    assert [] + DecodeFrames(env, input, 0).output == DecodeFrames(env, input, 0).output;
  }

  lemma StartStep(env: Environment)
    ensures Simulates(env, START, [], [], START, [])
  {
    hide Simulates;
    EmptyHeaderIsCoherent();
    NoStep(env, START, []);
  }
}
