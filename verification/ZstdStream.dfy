/** A Zstandard stream decoded in one go: the reference that the resumable
    decoder refines. Frames, blocks and checksums (zstd-zero/src/lib.rs lines
    474-618 and 832-896, RFC 8878 sections 3.1.1 and 3.1.2) as a recursive
    function of the whole input. */
module ZstdStream {
  import opened Numbers
  import opened Results
  import opened ZstdErrors
  import opened ZstdBits
  import opened ZstdSequences
  import opened ZstdBlock
  import FseTable
  import HuffmanTable

  const ZSTD_MAGIC: nat := 0xfd2f_b528
  const SKIPPABLE_MAGIC_MIN: nat := 0x184d_2a50
  const SKIPPABLE_MAGIC_MAX: nat := 0x184d_2a5f
  const MAX_FRAME_HEADER_SIZE: nat := 18

  // ----- frame headers

  datatype FrameHeader = FrameHeader(windowSize: nat, contentSize: Option<nat>, dictionaryId: nat, hasChecksum: bool)
  datatype StreamHeader = Zstandard(frame: FrameHeader) | Skippable(magic: nat, size: nat)
  datatype HeaderStatus = NeedMore(minimum: nat) | Complete(header: StreamHeader, size: nat)

  /** The sizes that the frame header descriptor implies. */
  function DictionarySize(descriptor: u8): nat
  {
    if descriptor % 4 == 3 then 4 else descriptor % 4
  }

  function ContentSizeBytes(descriptor: u8): nat
  {
    var flag := descriptor / 64;
    if flag == 0 then descriptor / 32 % 2 else if flag == 1 then 2 else if flag == 2 then 4 else 8
  }

  function HeaderSize(descriptor: u8): (size: nat)
    ensures 6 <= size <= MAX_FRAME_HEADER_SIZE
  {
    5 + (1 - descriptor / 32 % 2) + DictionarySize(descriptor) + ContentSizeBytes(descriptor)
  }

  function WindowOf(value: u8): nat
  {
    var base := Pow2(10 + value / 8);
    base + base / 8 * (value % 8)
  }

  function ParseFrameHeader(input: seq<u8>): FrameHeader
    requires |input| >= 5 && |input| >= HeaderSize(input[4])
  {
    var descriptor := input[4];
    var single := descriptor / 32 % 2 == 1;
    var dictionaryAt: nat := if single then 5 else 6;
    var contentAt := dictionaryAt + DictionarySize(descriptor);
    var contentBytes := ContentSizeBytes(descriptor);
    var dictionaryId := LittleEndian(input[dictionaryAt..contentAt]);
    var content := LittleEndian(input[contentAt..contentAt + contentBytes]) + if contentBytes == 2 then 256 else 0;
    FrameHeader(if single then content else WindowOf(input[5]),
                if contentBytes == 0 then None else Some(content),
                dictionaryId,
                descriptor / 4 % 2 == 1)
  }

  /** What the first bytes of a frame say: how many more are needed, or the header. */
  function InspectFrame(input: seq<u8>): (r: Result<HeaderStatus, DecodeError>)
    ensures r.Ok? && r.value.NeedMore? ==> |input| < r.value.minimum <= MAX_FRAME_HEADER_SIZE
    ensures r.Ok? && r.value.Complete? ==> 6 <= r.value.size <= |input|
  {
    if |input| < 4 then Ok(NeedMore(4))
    else
      var magic := LittleEndian(input[..4]);
      if SKIPPABLE_MAGIC_MIN <= magic <= SKIPPABLE_MAGIC_MAX then
        if |input| < 8 then Ok(NeedMore(8))
        else Ok(Complete(Skippable(magic, LittleEndian(input[4..8])), 8))
      else if magic != ZSTD_MAGIC then Err(InvalidMagic)
      else if |input| < 5 then Ok(NeedMore(5))
      else if input[4] / 8 % 2 == 1 then Err(InvalidFrameHeader)
      else if |input| < HeaderSize(input[4]) then Ok(NeedMore(HeaderSize(input[4])))
      else Ok(Complete(Zstandard(ParseFrameHeader(input)), HeaderSize(input[4])))
  }

  /** A header is decided by its own bytes: nothing behind it changes the answer. */
  lemma InspectDecided(input: seq<u8>, more: seq<u8>)
    requires InspectFrame(input).Err? || InspectFrame(input).value.Complete?
    ensures InspectFrame(input + more) == InspectFrame(input)
  {
    hide LittleEndian, WindowOf;
    var all := input + more;
    assert all[..4] == input[..4];
    if |input| >= 8 {
      assert all[4..8] == input[4..8];
    }
    if InspectFrame(input).Ok? && InspectFrame(input).value.header.Zstandard? {
      ParseDecided(input, more);
    }
  }

  lemma ParseDecided(input: seq<u8>, more: seq<u8>)
    requires |input| >= 5 && |input| >= HeaderSize(input[4])
    ensures ParseFrameHeader(input + more) == ParseFrameHeader(input)
  {
    hide LittleEndian, WindowOf;
    var all, descriptor := input + more, input[4];
    var dictionaryAt: nat := if descriptor / 32 % 2 == 1 then 5 else 6;
    var contentAt := dictionaryAt + DictionarySize(descriptor);
    assert all[dictionaryAt..contentAt] == input[dictionaryAt..contentAt];
    assert all[contentAt..contentAt + ContentSizeBytes(descriptor)]
        == input[contentAt..contentAt + ContentSizeBytes(descriptor)];
  }

  /** Asking for exactly the missing bytes never overshoots: a header that becomes
      complete that way has no byte of its frame behind it. */
  lemma FilledHeaderIsTight(input: seq<u8>, more: seq<u8>)
    requires InspectFrame(input).Ok? && InspectFrame(input).value.NeedMore?
    requires |input| + |more| <= InspectFrame(input).value.minimum
    ensures
      match InspectFrame(input + more)
      case Err(_) => |input| + |more| == InspectFrame(input).value.minimum
      case Ok(NeedMore(minimum)) => |input| + |more| < InspectFrame(input).value.minimum
          ==> minimum == InspectFrame(input).value.minimum
      case Ok(Complete(_, size)) => size == |input| + |more| == InspectFrame(input).value.minimum
  {
    hide LittleEndian, ParseFrameHeader;
    var all := input + more;
    if |input| >= 4 {
      assert all[..4] == input[..4];
    }
  }

  // ----- decoding a whole stream at once

  /** The lengths of the caller's buffers, and the checksum function. */
  datatype Environment = Environment(history: nat, block: nat, literals: nat, xxh64: seq<u8> -> u64)

  datatype Verdict = Accepted | Rejected(error: DecodeError)

  /** Everything a decoder lets its caller see: the bytes it delivers, and how it ends. */
  datatype Outcome = Outcome(output: seq<u8>, verdict: Verdict) {
    function After(earlier: seq<u8>): Outcome
    {
      Outcome(earlier + output, verdict)
    }
  }

  function Stop(error: DecodeError): Outcome
  {
    Outcome([], Rejected(error))
  }

  /** A frame that has begun: its header, and what its blocks have left behind. */
  datatype Frame = Frame(header: FrameHeader, carried: Carried) {
    function Bounded(env: Environment): Bounds
    {
      Bounds(env.history, env.literals, header.windowSize)
    }
  }

  ghost predicate Sound(frame: Frame)
  {
    HuffmanTable.WellFormed(frame.carried.code) && Positive(frame.carried.recent)
  }

  /** A frame needs a history buffer at least as long as its window; dictionaries are not supported. */
  ghost function StartFrame(header: FrameHeader, env: Environment): (r: Result<Frame, DecodeError>)
    ensures r.Ok? ==> Sound(r.value) && r.value.header.windowSize <= env.history
  {
    if header.dictionaryId != 0 then Err(UnsupportedDictionary(header.dictionaryId))
    else if header.windowSize > env.history then Err(HistoryTooSmall(header.windowSize, env.history))
    else
      var tables := Tables(FseTable.NO_TABLE, FseTable.NO_TABLE, FseTable.NO_TABLE);
      Ok(Frame(header, Carried([], FRESH_OFFSETS, HuffmanTable.NoCode, tables)))
  }

  /** A frame that declares its size must have regenerated exactly that many bytes. */
  function FrameEnd(header: FrameHeader, size: nat): Result<(), DecodeError>
  {
    if header.contentSize.Some? && header.contentSize.value != size
    then Err(ContentSizeMismatch(header.contentSize.value, size))
    else Ok(())
  }

  /** A stream is a sequence of frames, at least one; `completed` counts those already behind. */
  ghost function DecodeFrames(env: Environment, input: seq<u8>, completed: nat): Outcome
    decreases |input|, 0
  {
    match InspectFrame(input)
    case Err(e) => Stop(e)
    case Ok(NeedMore(_)) => if input == [] && completed > 0 then Outcome([], Accepted) else Stop(UnexpectedEof)
    case Ok(Complete(Skippable(_, size), used)) => AfterSkip(env, input[used..], size, completed)
    case Ok(Complete(Zstandard(header), used)) =>
      match StartFrame(header, env)
      case Err(e) => Stop(e)
      case Ok(frame) => DecodeBlocks(env, input[used..], frame, completed)
  }

  ghost function AfterSkip(env: Environment, input: seq<u8>, size: nat, completed: nat): Outcome
    decreases |input|, 2
  {
    if |input| < size then Stop(UnexpectedEof) else EndFrame(env, input[size..], completed)
  }

  ghost function EndFrame(env: Environment, input: seq<u8>, completed: nat): Outcome
    decreases |input|, 1
  {
    if completed >= U64_MAX then Stop(ArithmeticOverflow) else DecodeFrames(env, input, completed + 1)
  }

  /** A block's header, which must respect the block limit and the block buffer. */
  ghost function AcceptBlock(env: Environment, bytes: seq<u8>, frame: Frame): Result<BlockHeader, DecodeError>
    requires |bytes| == 3
  {
    var header :- ParseBlockHeader(bytes, frame.Bounded(env).Limit());
    if header.PayloadSize() > env.block then Err(BlockScratchTooSmall(header.PayloadSize(), env.block)) else Ok(header)
  }

  ghost function DecodeBlocks(env: Environment, input: seq<u8>, frame: Frame, completed: nat): Outcome
    requires Sound(frame)
    decreases |input|, 2
  {
    if |input| < 3 then Stop(UnexpectedEof)
    else
      match AcceptBlock(env, input[..3], frame)
      case Err(e) => Stop(e)
      case Ok(header) => DecodePayload(env, input[3..], frame, header, completed)
  }

  /** The frame once a block has been decoded. */
  ghost function AfterBlock(env: Environment, header: BlockHeader, payload: seq<u8>, frame: Frame)
    : (r: Result<Frame, DecodeError>)
    requires |payload| == header.PayloadSize() && Sound(frame)
    ensures r.Ok? ==> Sound(r.value) && r.value.header == frame.header && frame.carried.out <= r.value.carried.out
    ensures r.Ok? ==> |r.value.carried.out| - |frame.carried.out| <= Min(frame.header.windowSize, MAX_BLOCK_SIZE)
  {
    hide BlockEffect;
    var after :- BlockOutput(header, payload, frame.carried, frame.Bounded(env));
    BlockAppends(header, payload, frame.carried, frame.Bounded(env));
    if header.last && !frame.header.hasChecksum then
      var _ :- FrameEnd(frame.header, |after.out|);
      Ok(frame.(carried := after))
    else Ok(frame.(carried := after))
  }

  /** A block delivers what it appends to the frame's output; the last block leads to the frame's end. */
  ghost function DecodePayload(env: Environment, input: seq<u8>, frame: Frame, header: BlockHeader,
      completed: nat): Outcome
    requires Sound(frame)
    decreases |input|, 3
  {
    if |input| < header.PayloadSize() then Stop(UnexpectedEof)
    else
      match AfterBlock(env, header, input[..header.PayloadSize()], frame)
      case Err(e) => Stop(e)
      case Ok(after) =>
        var rest := input[header.PayloadSize()..];
        var later :=
          if !header.last then DecodeBlocks(env, rest, after, completed)
          else if frame.header.hasChecksum then DecodeChecksum(env, rest, after, completed)
          else EndFrame(env, rest, completed);
        later.After(after.carried.out[|frame.carried.out|..])
  }

  /** The low 32 bits of the checksum of everything the frame regenerated. */
  ghost function CheckFrame(env: Environment, bytes: seq<u8>, frame: Frame): Result<(), DecodeError>
    requires |bytes| == 4
  {
    var expected, actual := LittleEndian(bytes), env.xxh64(frame.carried.out) % 0x1_0000_0000;
    if actual != expected then Err(ChecksumMismatch(expected, actual))
    else FrameEnd(frame.header, |frame.carried.out|)
  }

  ghost function DecodeChecksum(env: Environment, input: seq<u8>, frame: Frame, completed: nat): Outcome
    decreases |input|, 2
  {
    if |input| < 4 then Stop(UnexpectedEof)
    else
      match CheckFrame(env, input[..4], frame)
      case Err(e) => Stop(e)
      case Ok(_) => EndFrame(env, input[4..], completed)
  }
}
