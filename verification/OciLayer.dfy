/** Applying a layer (src/layer.rs lines 150-155, 224-440 and src/digest.rs
    lines 48-104): a transaction on a sink that begins once, passes on the
    archive's events, and is committed only if every check has passed. */
module OciLayer {
  import opened Numbers
  import opened Results
  import opened Concatenation
  import opened ZstdErrors
  import ZstdStream
  import ZstdMachine
  import ZstdDecoder
  import TarErrors
  import TarArchive
  import TarParser

  // ----- digests

  datatype VerifyError =
    | SizeOverflow
    | SizeMismatch(expected: nat, actual: nat)
    | DigestMismatch(expected: nat, actual: nat)

  /** A digest is a number; SHA-256 is a function of the bytes. */
  class Verifier {
    const expectedDigest: nat
    const expectedSize: Option<u64>
    const sha256: seq<u8> -> nat
    var actualSize: nat
    /** The bytes that the running hash has seen. */
    var hashed: seq<u8>

    constructor (expectedDigest: nat, expectedSize: Option<u64>, sha256: seq<u8> -> nat)
      ensures Valid() && hashed == [] && this.expectedDigest == expectedDigest && this.expectedSize == expectedSize
      ensures this.sha256 == sha256
    {
      this.expectedDigest, this.expectedSize, this.sha256 := expectedDigest, expectedSize, sha256;
      actualSize, hashed := 0, [];
    }

    ghost predicate Valid()
      reads this
    {
      actualSize == |hashed| <= U64_MAX
    }

    method Update(bytes: seq<u8>) returns (r: Result<(), VerifyError>)
      requires Valid()
      modifies this
      ensures Valid()
      ensures r == if |old(hashed)| + |bytes| > U64_MAX then Err(SizeOverflow) else Ok(())
      ensures hashed == if r.Ok? then old(hashed) + bytes else old(hashed)
    {
      if actualSize + |bytes| > U64_MAX {
        return Err(SizeOverflow);
      }
      actualSize := actualSize + |bytes|;
      hashed := hashed + bytes;
      r := Ok(());
    }

    function Finish(): Result<(), VerifyError>
      reads this
    {
      if expectedSize.Some? && expectedSize.value != actualSize then Err(SizeMismatch(expectedSize.value, actualSize))
      else if sha256(hashed) != expectedDigest then Err(DigestMismatch(expectedDigest, sha256(hashed)))
      else Ok(())
    }
  }

  // ----- the sink

  /** A call on the sink, and whether the sink accepted it; `Abort` cannot be refused. */
  datatype Call = Begin(accepted: bool) | Emit(event: TarArchive.Event, accepted: bool) | Commit(accepted: bool) | Abort

  /** Any sink at all: what it answers to its k-th call is up to it. */
  class Sink {
    const answers: nat -> bool
    var log: seq<Call>

    constructor (answers: nat -> bool)
      ensures log == []
    {
      this.answers := answers;
      log := [];
    }

    method BeginLayer() returns (accepted: bool)
      modifies this
      ensures log == old(log) + [Begin(accepted)]
    {
      accepted := answers(|log|);
      log := log + [Begin(accepted)];
    }

    method Accept(event: TarArchive.Event) returns (accepted: bool)
      modifies this
      ensures log == old(log) + [Emit(event, accepted)]
    {
      accepted := answers(|log|);
      log := log + [Emit(event, accepted)];
    }

    method CommitLayer() returns (accepted: bool)
      modifies this
      ensures log == old(log) + [Commit(accepted)]
    {
      accepted := answers(|log|);
      log := log + [Commit(accepted)];
    }

    method AbortLayer()
      modifies this
      ensures log == old(log) + [Abort]
    {
      log := log + [Abort];
    }
  }

  // ----- the discipline of the transaction

  /** `Refused` is inside a transaction whose last call the sink has refused. */
  datatype Transaction = Before | Inside | Refused | Committed | Aborted

  /** Begin until accepted; then events; a refusal can only be followed by an abort; after a commit
      or an abort there is nothing. */
  function Track(t: Transaction, call: Call): Option<Transaction>
  {
    match call
    case Begin(accepted) => if t == Before then Some(if accepted then Inside else Before) else None
    case Emit(_, accepted) => if t == Inside then Some(if accepted then Inside else Refused) else None
    case Commit(accepted) => if t == Inside then Some(if accepted then Committed else Refused) else None
    case Abort => if t == Inside || t == Refused then Some(Aborted) else None
  }

  function TrackAll(log: seq<Call>): Option<Transaction>
  {
    if log == [] then Some(Before)
    else
      match TrackAll(log[..|log| - 1])
      case None => None
      case Some(t) => Track(t, log[|log| - 1])
  }

  lemma TrackNext(log: seq<Call>, call: Call)
    ensures TrackAll(log + [call]) ==
      match TrackAll(log)
      case None => None
      case Some(t) => Track(t, call)
  {
    assert (log + [call])[..|log|] == log;
  }

  /** What following the discipline means for the calls themselves: no begin after an accepted one,
      nothing after a commit or an abort, and a refusal is followed by the abort at once. */
  lemma {:induction false} DisciplineOf(log: seq<Call>)
    requires TrackAll(log).Some?
    ensures forall i, j :: 0 <= i < j < |log| && log[i] == Begin(true) ==> !log[j].Begin?
    ensures forall i :: 0 <= i < |log| - 1 ==> log[i] != Commit(true) && log[i] != Abort
    ensures forall i :: 0 <= i < |log| - 1 && Refuses(log[i]) ==> log[i + 1] == Abort
    ensures TrackAll(log) == Some(Committed) ==> log != [] && log[|log| - 1] == Commit(true)
    ensures TrackAll(log) == Some(Aborted) ==> log != [] && log[|log| - 1] == Abort
    ensures TrackAll(log) == Some(Refused) ==> log != [] && Refuses(log[|log| - 1])
    ensures TrackAll(log) == Some(Before) <==> forall i :: 0 <= i < |log| ==> log[i] == Begin(false)
    ensures TrackAll(log) == Some(Inside) ==>
              log != [] && (log[|log| - 1] == Begin(true) || (log[|log| - 1].Emit? && log[|log| - 1].accepted))
  {
    if log != [] {
      var earlier := log[..|log| - 1];
      DisciplineOf(earlier);
      assert forall i :: 0 <= i < |earlier| ==> log[i] == earlier[i];
      if TrackAll(log) == Some(Before) {
        assert forall i :: 0 <= i < |earlier| ==> earlier[i] == Begin(false);
      }
    }
  }

  predicate Refuses(call: Call)
  {
    (call.Emit? && !call.accepted) || call == Commit(false)
  }

  /** The sink has refused an event or the commit. */
  predicate Turned(log: seq<Call>)
  {
    exists i :: 0 <= i < |log| && Refuses(log[i])
  }

  lemma TurnedNext(log: seq<Call>, call: Call)
    ensures Turned(log + [call]) <==> Turned(log) || Refuses(call)
  {
    if Turned(log) {
      var i :| 0 <= i < |log| && Refuses(log[i]);
      assert (log + [call])[i] == log[i];
    }
    if Refuses(call) {
      assert (log + [call])[|log|] == call;
    }
  }

  /** Inside a transaction a refusal shows at once. */
  lemma {:induction false} TurnedIsRefused(log: seq<Call>)
    requires TrackAll(log).Some?
    ensures Turned(log)
        <==> TrackAll(log) == Some(Refused) || (TrackAll(log) == Some(Aborted) && Turned(log[..|log| - 1]))
  {
    if log != [] {
      var earlier := log[..|log| - 1];
      assert log == earlier + [log[|log| - 1]];
      TurnedIsRefused(earlier);
      TurnedNext(earlier, log[|log| - 1]);
    }
  }

  /** The events that the sink has accepted. */
  function Accepted(log: seq<Call>): seq<TarArchive.Event>
  {
    if log == [] then []
    else
      Accepted(log[..|log| - 1])
        + if log[|log| - 1].Emit? && log[|log| - 1].accepted then [log[|log| - 1].event] else []
  }

  lemma AcceptedNext(log: seq<Call>, call: Call)
    ensures Accepted(log + [call]) == if call.Emit? && call.accepted then Accepted(log) + [call.event]
        else Accepted(log)
  {
    assert (log + [call])[..|log|] == log;
  }

  // ----- the decoder

  datatype Codec = TarCodec | ZstdCodec(decoder: ZstdDecoder.Decoder)

  datatype LayerFormatError = DecoderStalled | Zstd(error: DecodeError)

  datatype ApplyError =
    | Format(format: LayerFormatError)
    | Integrity(integrity: VerifyError)
    | Archive(archive: TarErrors.ArchiveError)
    | ArchiveFinish(finish: TarArchive.FinishError)
    | SinkRefused
    | InvalidState

  /** A step of whichever decoder: what it consumed and produced, and whether it wants more input. */
  datatype Turn = Turn(consumed: nat, bytes: seq<u8>, needsInput: bool)

  ghost function CodecFootprint(codec: Codec): set<object>
  {
    match codec
    case TarCodec => {}
    case ZstdCodec(decoder) => decoder.Footprint()
  }

  /** `taken` has come in, of which `rest` is still to be looked at, and `decoded` has come out. */
  ghost predicate InStep(codec: Codec, taken: seq<u8>, decoded: seq<u8>, rest: seq<u8>)
    reads CodecFootprint(codec)
  {
    match codec
    case TarCodec => taken == decoded + rest
    case ZstdCodec(d) =>
      && d.Valid() && !d.poisoned
      && ZstdMachine.Simulates(d.Env(), ZstdMachine.START, taken, decoded, d.MachineNow(), rest)
  }

  /** What the taken bytes are the encoding of. */
  ghost predicate Encodes(codec: Codec, taken: seq<u8>, content: seq<u8>)
  {
    match codec
    case TarCodec => taken == content
    case ZstdCodec(d) => ZstdStream.DecodeFrames(d.Env(), taken, 0) == ZstdStream.Outcome(content, ZstdStream.Accepted)
  }

  /** No continuation of the taken bytes is the encoding of anything. */
  ghost predicate Undecodable(codec: Codec, taken: seq<u8>)
  {
    forall later, content :: !Encodes(codec, taken + later, content)
  }

  /** How often a decoder may still be called in a row without consuming anything. */
  ghost function Silence(codec: Codec): nat
    reads CodecFootprint(codec)
  {
    match codec
    case TarCodec => 0
    case ZstdCodec(d) => if d.Valid() && !d.poisoned then 3 * ZstdMachine.Rank(d.PhaseNow()) + d.Pieces() else 0
  }

  /** The decoder wants more input and has nothing left to hand out. */
  ghost predicate Waiting(codec: Codec)
    reads CodecFootprint(codec)
  {
    match codec
    case TarCodec => true
    case ZstdCodec(d) => d.Valid() && !d.poisoned && d.pendingLen == 0 && ZstdMachine.Missing(d.PhaseNow()) > 0
  }

  method Decode(codec: Codec, input: seq<u8>, ghost taken: seq<u8>, ghost decoded: seq<u8>)
    returns (r: Result<Turn, LayerFormatError>)
    requires InStep(codec, taken, decoded, input)
    modifies CodecFootprint(codec)
    ensures
      match r
      case Err(e) => e.Zstd? && Undecodable(codec, taken)
      case Ok(turn) =>
        && turn.consumed <= |input| && InStep(codec, taken, decoded + turn.bytes, input[turn.consumed..])
        && (turn.needsInput ==> turn.bytes == [] && turn.consumed == |input| && Waiting(codec))
        && (!turn.needsInput && turn.consumed == 0 ==> Silence(codec) < old(Silence(codec)))
  {
    match codec
    case TarCodec =>
      if input == [] {
        assert decoded + [] == decoded;
        return Ok(Turn(0, [], true));
      }
      assert taken == (decoded + input) + [];
      r := Ok(Turn(|input|, input, false));
    case ZstdCodec(d) =>
      r := DecodeZstd(d, input, taken, decoded);
  }

  method DecodeZstd(d: ZstdDecoder.Decoder, input: seq<u8>, ghost taken: seq<u8>, ghost decoded: seq<u8>)
    returns (r: Result<Turn, LayerFormatError>)
    requires InStep(ZstdCodec(d), taken, decoded, input)
    modifies d.Footprint()
    ensures
      match r
      case Err(e) => e.Zstd? && Undecodable(ZstdCodec(d), taken)
      case Ok(turn) =>
        var codec := ZstdCodec(d);
        && turn.consumed <= |input| && InStep(codec, taken, decoded + turn.bytes, input[turn.consumed..])
        && (turn.needsInput ==> turn.bytes == [] && turn.consumed == |input| && Waiting(codec))
        && (!turn.needsInput && turn.consumed == 0 ==> Silence(codec) < old(Silence(codec)))
  {
    hide ZstdMachine.Simulates, ZstdMachine.Decoded, ZstdMachine.Fails, ZstdMachine.Coherent, ZstdMachine.Missing,
        ZstdMachine.Settled, ZstdMachine.Rank;
    ghost var env, before := d.Env(), d.MachineNow();
    d.MachineFacts();
    var step := d.Decode(input);
    if step.Err? {
      ZstdDead(env, taken, decoded, before, input, step.error);
      return Err(Zstd(step.error));
    }
    var t := step.value;
    d.MachineFacts();
    ghost var rest := input[t.consumed..];
    ZstdDecoder.CallShrinks(env, before, input, t.bytes, d.MachineNow(), rest, ZstdDecoder.VisibleEvent(t.step));
    ZstdMachine.DeliveringSteps(env, ZstdMachine.START, taken, decoded, before, input, t.bytes, d.MachineNow(), rest);
    r := Ok(Turn(t.consumed, t.bytes, t.step.NeedInput?));
  }

  lemma ZstdDead(env: ZstdStream.Environment, taken: seq<u8>, decoded: seq<u8>, m: ZstdMachine.Machine, input: seq<u8>,
      error: DecodeError)
    requires ZstdMachine.Simulates(env, ZstdMachine.START, taken, decoded, m, input)
        && ZstdMachine.Fails(env, m, input, error)
    ensures forall later :: ZstdStream.DecodeFrames(env, taken + later, 0).verdict == ZstdStream.Rejected(error)
  {
    hide ZstdMachine.Future, ZstdMachine.Coherent, ZstdMachine.Simulates, ZstdMachine.Fails;
    ZstdMachine.DeliverThenFail(env, ZstdMachine.START, taken, decoded, m, input, error);
    forall later: seq<u8>
      ensures ZstdStream.DecodeFrames(env, taken + later, 0).verdict == ZstdStream.Rejected(error)
    {
      ZstdDecoder.FacingStart(env, taken + later);
    }
  }

  /** What has come out is the front of whatever the input turns out to encode. */
  lemma DecodedIsPrefix(codec: Codec, taken: seq<u8>, decoded: seq<u8>, rest: seq<u8>, later: seq<u8>, content: seq<u8>)
    requires InStep(codec, taken, decoded, rest) && Encodes(codec, taken + later, content)
    ensures decoded <= content
  {
    match codec
    case TarCodec => assert content[..|decoded|] == decoded;
    case ZstdCodec(d) => d.MachineFacts(); ZstdPrefix(d.Env(), taken, decoded, d.MachineNow(), rest, later);
  }

  lemma ZstdPrefix(env: ZstdStream.Environment, taken: seq<u8>, decoded: seq<u8>, m: ZstdMachine.Machine, rest: seq<u8>,
      later: seq<u8>)
    requires ZstdMachine.Simulates(env, ZstdMachine.START, taken, decoded, m, rest)
    ensures decoded <= ZstdStream.DecodeFrames(env, taken + later, 0).output
  {
    hide ZstdMachine.Future, ZstdMachine.Coherent;
    ZstdDecoder.FacingStart(env, taken + later);
  }

  function FinishCodec(codec: Codec): Result<(), LayerFormatError>
    reads CodecFootprint(codec)
  {
    match codec
    case TarCodec => Ok(())
    case ZstdCodec(d) => if d.Finish().Err? then Err(Zstd(d.Finish().error)) else Ok(())
  }

  /** More input has come in. */
  lemma MoreTaken(codec: Codec, taken: seq<u8>, decoded: seq<u8>, input: seq<u8>)
    requires InStep(codec, taken, decoded, [])
    ensures InStep(codec, taken + input, decoded, input)
  {
    hide ZstdMachine.Future, ZstdMachine.Coherent;
    match codec
    case TarCodec => assert decoded + [] == decoded;
    case ZstdCodec(d) => d.MachineFacts(); ZstdLater(d.Env(), taken, decoded, d.MachineNow(), input);
  }

  lemma ZstdLater(env: ZstdStream.Environment, taken: seq<u8>, decoded: seq<u8>, m: ZstdMachine.Machine, input: seq<u8>)
    requires ZstdMachine.Simulates(env, ZstdMachine.START, taken, decoded, m, [])
    ensures ZstdMachine.Simulates(env, ZstdMachine.START, taken + input, decoded, m, input)
  {
    hide ZstdMachine.Future, ZstdMachine.Coherent;
    forall more: seq<u8>
      ensures ZstdMachine.Future(env, ZstdMachine.START, (taken + input) + more)
          == ZstdMachine.Future(env, m, input + more).After(decoded)
    {
      assert (taken + input) + more == taken + (input + more);
      assert [] + (input + more) == input + more;
    }
  }

  /** A decoder that waits may stop exactly if the input encodes something, and then that is what has come out. */
  lemma FinishedEncodes(codec: Codec, taken: seq<u8>, decoded: seq<u8>)
    requires InStep(codec, taken, decoded, []) && Waiting(codec)
    ensures forall content :: Encodes(codec, taken, content) <==> FinishCodec(codec).Ok? && content == decoded
  {
    hide ZstdMachine.Future, ZstdMachine.Coherent, ZstdMachine.Simulates, ZstdMachine.Missing;
    match codec
    case TarCodec => assert decoded + [] == decoded;
    case ZstdCodec(d) =>
      d.FinishJudges();
      ZstdMachine.LastFragment(d.Env(), ZstdMachine.START, taken, decoded, d.MachineNow());
      ZstdDecoder.FacingStart(d.Env(), taken);
      assert decoded + [] == decoded;
  }

  lemma SilenceBound(codec: Codec)
    ensures Silence(codec) <= 11
  {
  }

  /** A decoder, and what it has to be checked against. */
  class VerifiedDecoder {
    const codec: Codec
    const compressed: Verifier
    const uncompressed: Option<Verifier>
    var decompressedSize: nat

    constructor (codec: Codec, compressed: Verifier, uncompressed: Option<Verifier>)
      ensures this.codec == codec && this.compressed == compressed && this.uncompressed == uncompressed
          && decompressedSize == 0
    {
      this.codec, this.compressed, this.uncompressed := codec, compressed, uncompressed;
      decompressedSize := 0;
    }

    ghost function Footprint(): set<object>
    {
      CodecFootprint(codec) + {this, compressed} + (if uncompressed.Some? then {uncompressed.value} else {})
    }

    lemma HoldsCodec()
      ensures CodecFootprint(codec) <= Footprint() && allocated(CodecFootprint(codec)) && allocated(Footprint())
    {
    }

    /** The bookkeeping is separate from the decoder and from itself. */
    ghost predicate Separate()
    {
      && this !in CodecFootprint(codec) && compressed !in CodecFootprint(codec)
      && (uncompressed.Some? ==> uncompressed.value !in CodecFootprint(codec) && uncompressed.value != compressed)
    }

    /** `taken` has come in, `rest` of it is unread, `decoded` has come out, and the verifiers have seen both. */
    ghost predicate Tracks(taken: seq<u8>, decoded: seq<u8>, rest: seq<u8>)
      reads Footprint()
    {
      && Separate() && InStep(codec, taken, decoded, rest)
      && compressed.Valid() && compressed.hashed == taken && decompressedSize == |decoded|
      && (uncompressed.Some? ==> uncompressed.value.Valid() && uncompressed.value.hashed == decoded)
    }

    /** A fragment arrives. */
    method Take(input: seq<u8>, ghost taken: seq<u8>, ghost decoded: seq<u8>) returns (r: Result<(), ApplyError>)
      requires Tracks(taken, decoded, [])
      modifies compressed
      ensures
        match r
        case Err(e) => e.Integrity? && Hopeless(taken + input)
        case Ok(_) => Tracks(taken + input, decoded, input)
    {
      hide InStep, Encodes;
      MoreTaken(codec, taken, decoded, input);
      var updated := compressed.Update(input);
      if updated.Err? {
        return Err(Integrity(updated.error));
      }
      r := Ok(());
    }

    /** One step of the decoder; its output goes to the verifier first. */
    method Step(input: seq<u8>, ghost taken: seq<u8>, ghost decoded: seq<u8>) returns (r: Result<Turn, ApplyError>)
      requires Tracks(taken, decoded, input)
      modifies Footprint()
      ensures
        match r
        case Err(e) => (e.Integrity? || (e.Format? && e.format.Zstd?)) && Hopeless(taken)
        case Ok(turn) =>
          && turn.consumed <= |input| && Tracks(taken, decoded + turn.bytes, input[turn.consumed..])
          && (turn.needsInput ==> turn.bytes == [] && turn.consumed == |input| && Waiting(codec))
          && (!turn.needsInput && turn.consumed == 0 ==> Silence(codec) < old(Silence(codec)))
    {
      hide InStep, Waiting, Silence, Encodes, Hopeless, Genuine;
      var decodedTurn := Decode(codec, input, taken, decoded);
      if decodedTurn.Err? {
        UndecodableIsHopeless(taken);
        return Err(Format(decodedTurn.error));
      }
      var turn := decodedTurn.value;
      var _ :- Account(turn.bytes, taken, decoded, input[turn.consumed..]);
      r := Ok(turn);
    }

    /** Counts and verifies what has come out. */
    method Account(bytes: seq<u8>, ghost taken: seq<u8>, ghost decoded: seq<u8>, ghost rest: seq<u8>)
      returns (r: Result<(), ApplyError>)
      requires Separate() && InStep(codec, taken, decoded + bytes, rest)
      requires compressed.Valid() && compressed.hashed == taken && decompressedSize == |decoded|
      requires uncompressed.Some? ==> uncompressed.value.Valid() && uncompressed.value.hashed == decoded
      modifies `decompressedSize, if uncompressed.Some? then {uncompressed.value} else {}
      ensures
        match r
        case Err(e) => e.Integrity? && Hopeless(taken)
        case Ok(_) => Tracks(taken, decoded + bytes, rest)
      ensures Silence(codec) == old(Silence(codec)) && (Waiting(codec) <==> old(Waiting(codec)))
    {
      hide InStep, Waiting, Silence, Encodes, Hopeless, Genuine, CodecFootprint;
      HoldsCodec();
      decompressedSize := decompressedSize + |bytes|;
      if uncompressed.Some? {
        var updated := uncompressed.value.Update(bytes);
        if updated.Err? {
          TooMuchDecoded(taken, decoded + bytes, rest);
          return Err(Integrity(updated.error));
        }
      }
      r := Ok(());
    }

    /** All checks that the decoder itself can make: its own end, the sizes, and the digests. */
    function Check(): Result<(), ApplyError>
      reads Footprint()
    {
      if FinishCodec(codec).Err? then Err(Format(FinishCodec(codec).error))
      else if compressed.Finish().Err? then Err(Integrity(compressed.Finish().error))
      else if uncompressed.Some? && uncompressed.value.Finish().Err? then
          Err(Integrity(uncompressed.value.Finish().error))
      else Ok(())
    }

    lemma CheckNeverStalls()
      ensures Check().Err? ==> !Check().error.SinkRefused? && Check().error != Format(LayerFormatError.DecoderStalled)
    {
    }

    /** What a passed check is worth: the content has the right encoding, sizes and digests, and the sizes fit 64
        bits. */
    ghost predicate Genuine(taken: seq<u8>, decoded: seq<u8>)
    {
      && Encodes(codec, taken, decoded) && |taken| <= U64_MAX
      && (compressed.expectedSize.Some? ==> compressed.expectedSize.value == |taken|)
      && compressed.sha256(taken) == compressed.expectedDigest
      && (uncompressed.Some? ==>
            && |decoded| <= U64_MAX
            && (uncompressed.value.expectedSize.Some? ==> uncompressed.value.expectedSize.value == |decoded|)
            && uncompressed.value.sha256(decoded) == uncompressed.value.expectedDigest)
    }

    /** Nothing that begins with these bytes is genuine. */
    ghost predicate Hopeless(taken: seq<u8>)
    {
      forall later, content :: !Genuine(taken + later, content)
    }

    lemma UndecodableIsHopeless(taken: seq<u8>)
      requires Undecodable(codec, taken)
      ensures Hopeless(taken)
    {
      hide Encodes;
    }

    lemma TooMuchDecoded(taken: seq<u8>, decoded: seq<u8>, rest: seq<u8>)
      requires InStep(codec, taken, decoded, rest) && uncompressed.Some? && |decoded| > U64_MAX
      ensures Hopeless(taken)
    {
      hide InStep, Encodes;
      forall later: seq<u8>, content: seq<u8>
        ensures !Genuine(taken + later, content)
      {
        if Encodes(codec, taken + later, content) {
          DecodedIsPrefix(codec, taken, decoded, rest, later, content);
        }
      }
    }

    /** The check passes exactly if what has been taken is the genuine encoding of something. */
    lemma CheckedIsGenuine(taken: seq<u8>, decoded: seq<u8>)
      requires Tracks(taken, decoded, []) && Waiting(codec)
      ensures forall content :: Genuine(taken, content) <==> Check().Ok? && content == decoded
    {
      hide InStep, Waiting, Encodes, FinishCodec;
      FinishedEncodes(codec, taken, decoded);
    }
  }

  // ----- the transaction

  datatype ApplyState = Ready | Applying | Failed | Finished

  /** The archive's account of the decoded bytes, and the sink's: the same events, up to how data is cut. */
  ghost predicate Reported(archive: TarParser.Archive, decoded: seq<u8>, events: seq<TarArchive.Event>)
    reads archive, archive.header, archive.path, archive.link, archive.pax
  {
    && archive.Valid() && TarParser.Pieces(events)
    && TarArchive.Run(TarArchive.START, decoded, archive.Sizes()).events == TarParser.Explode(events)
    && TarArchive.Run(TarArchive.START, decoded, archive.Sizes()).end == Ok(archive.View())
  }

  lemma ReportedMore(archive: TarParser.Archive, before: TarArchive.Parser, decoded: seq<u8>,
      events: seq<TarArchive.Event>,
                     bytes: seq<u8>, more: seq<TarArchive.Event>)
    requires TarParser.Pieces(events) && TarParser.Pieces(more) && archive.Valid()
    requires TarArchive.Run(TarArchive.START, decoded, archive.Sizes())
        == TarArchive.Trace(TarParser.Explode(events), Ok(before))
    requires TarArchive.Run(before, bytes, archive.Sizes())
        == TarArchive.Trace(TarParser.Explode(more), Ok(archive.View()))
    ensures Reported(archive, decoded + bytes, events + more)
  {
    hide TarArchive.Run, TarParser.Explode;
    TarArchive.RunConcat(TarArchive.START, decoded, bytes, archive.Sizes());
    TarParser.ExplodeConcat(events, more);
  }

  class LayerApplier {
    const decoder: VerifiedDecoder
    const archive: TarParser.Archive
    const sink: Sink
    var state: ApplyState
    ghost var taken: seq<u8>
    ghost var decoded: seq<u8>

    ghost function Parser(): set<object>
    {
      {archive, archive.header, archive.path, archive.link, archive.pax}
    }

    lemma HoldsDecoder()
      ensures CodecFootprint(decoder.codec) <= decoder.Footprint() && allocated(CodecFootprint(decoder.codec))
      ensures allocated(decoder.Footprint())
    {
    }

    /** Decoder, parser, sink and the applier itself share nothing. */
    ghost predicate Apart()
    {
      && decoder.Footprint() !! Parser() && this !in decoder.Footprint() && this !in Parser()
      && sink !in decoder.Footprint() && sink !in Parser()
    }

    ghost function Footprint(): set<object>
    {
      decoder.Footprint() + Parser() + {this, sink}
    }

    /** What the states stand for. A finished layer was genuine, its archive was complete, and the sink has seen all
        of it. */
    ghost predicate Valid()
      reads Footprint()
    {
      && Apart()
      && match state
         case Ready =>
           && TrackAll(sink.log) == Some(Before) && Accepted(sink.log) == [] && taken == [] && decoded == []
           && decoder.Tracks([], [], []) && Reported(archive, [], [])
         case Applying =>
           && TrackAll(sink.log) == Some(Inside)
           && decoder.Tracks(taken, decoded, []) && Reported(archive, decoded, Accepted(sink.log))
         case Failed => TrackAll(sink.log) == Some(Aborted)
         case Finished =>
           && TrackAll(sink.log) == Some(Committed)
           && decoder.Genuine(taken, decoded) && Applied(archive.Sizes(), decoded, Accepted(sink.log))
    }

    /** A layer that should be applied: genuine, and a complete archive. */
    ghost predicate Good(taken: seq<u8>, content: seq<u8>)
    {
      decoder.Genuine(taken, content) && Complete(archive.Sizes(), content)
    }

    /** No layer that begins with these bytes should be applied. */
    ghost predicate Hopeless(taken: seq<u8>)
    {
      forall later, content :: !Good(taken + later, content)
    }

    /** What an error means before the transaction is given up: the sink has refused something, or the layer is not
        good. */
    ghost predicate Blames(error: ApplyError, bad: bool)
      reads sink
    {
      if error.SinkRefused? then TrackAll(sink.log) == Some(Refused)
      else TrackAll(sink.log) == Some(Inside) && bad && error != Format(LayerFormatError.DecoderStalled)
    }

    /** And what it means afterwards. */
    ghost predicate Failing(error: ApplyError, bad: bool)
      reads `state, sink
    {
      && state == Failed && (error.SinkRefused? <==> Turned(sink.log))
      && (!error.SinkRefused? ==> bad && error != Format(LayerFormatError.DecoderStalled))
    }

    lemma StillHopeless(taken: seq<u8>)
      requires decoder.Hopeless(taken)
      ensures Hopeless(taken)
    {
      hide VerifiedDecoder.Genuine;
    }

    constructor (decoder: VerifiedDecoder, archive: TarParser.Archive, sink: Sink)
      requires decoder.Tracks([], [], []) && archive.Valid() && archive.View() == TarArchive.START && sink.log == []
      requires decoder.Footprint() !! {archive, archive.header, archive.path, archive.link, archive.pax}
      requires sink !in decoder.Footprint()
          && sink !in {archive, archive.header, archive.path, archive.link, archive.pax}
      ensures Valid() && state == Ready && this.decoder == decoder && this.archive == archive && this.sink == sink
    {
      hide TarArchive.Sane, TarArchive.Run, InStep, TarParser.Explode;
      this.decoder, this.archive, this.sink := decoder, archive, sink;
      state, taken, decoded := Ready, [], [];
      new;
      TarParser.ExplodeNoData([]);
      TarParser.NoBytes(TarArchive.START, [], archive.Sizes());
    }

    /** Hands events to the sink until it refuses one. */
    method OfferAll(events: seq<TarArchive.Event>) returns (accepted: bool)
      requires TrackAll(sink.log) == Some(Inside)
      modifies sink
      ensures accepted ==> TrackAll(sink.log) == Some(Inside) && Accepted(sink.log) == old(Accepted(sink.log)) + events
      ensures !accepted ==> TrackAll(sink.log) == Some(Refused)
    {
      hide TrackAll, Accepted;
      ghost var before := Accepted(sink.log);
      assert events[..0] == [] && before + [] == before;
      for i := 0 to |events|
        invariant TrackAll(sink.log) == Some(Inside) && Accepted(sink.log) == before + events[..i]
      {
        ghost var log := sink.log;
        var taken := sink.Accept(events[i]);
        TrackNext(log, Emit(events[i], taken));
        AcceptedNext(log, Emit(events[i], taken));
        if !taken {
          return false;
        }
        assert events[..i + 1] == events[..i] + [events[i]];
        assert before + events[..i + 1] == before + events[..i] + [events[i]];
      }
      assert events[..|events|] == events;
      accepted := true;
    }

    /** Parses decoded bytes; events reach the sink before an error of the archive is reported. */
    method Parse(bytes: seq<u8>, ghost before: seq<u8>) returns (r: Result<(), ApplyError>)
      requires Apart() && TrackAll(sink.log) == Some(Inside) && Reported(archive, before, Accepted(sink.log))
      modifies archive, archive.header, archive.path, archive.link, archive.pax, sink
      ensures
        match r
        case Err(e) => (e.SinkRefused? || e.Archive?) && Blames(e, Broken(archive.Sizes(), before + bytes))
        case Ok(_) => TrackAll(sink.log) == Some(Inside) && Reported(archive, before + bytes, Accepted(sink.log))
    {
      hide TarArchive.Run, TarParser.Explode, TarArchive.Sane, TrackAll, Accepted;
      ghost var view, known := archive.View(), Accepted(sink.log);
      var pushed, events := archive.Push(bytes);
      var accepted := OfferAll(events);
      if !accepted {
        return Err(SinkRefused);
      }
      if pushed.Err? {
        TarArchive.RunConcat(TarArchive.START, before, bytes, archive.Sizes());
        return Err(ApplyError.Archive(pushed.error));
      }
      ReportedMore(archive, view, before, known, bytes, events);
      r := Ok(());
    }

    /** In the middle of a layer, with `rest` of the input unread. */
    ghost predicate Underway(rest: seq<u8>)
      reads Footprint()
    {
      && Apart() && state == Applying && TrackAll(sink.log) == Some(Inside)
      && decoder.Tracks(taken, decoded, rest) && Reported(archive, decoded, Accepted(sink.log))
    }

    /** One step of the decoder, and the parsing of what it produced. */
    method Advance(remaining: seq<u8>) returns (r: Result<Turn, ApplyError>)
      requires Underway(remaining)
      modifies Footprint()
      ensures state == Applying && Apart() && taken == old(taken)
      ensures
        match r
        case Err(e) => Blames(e, Hopeless(taken))
        case Ok(turn) =>
          && turn.consumed <= |remaining| && Underway(remaining[turn.consumed..])
          && (turn.needsInput ==> turn.consumed == |remaining| && Waiting(decoder.codec))
          && (!turn.needsInput && turn.consumed == 0 ==> Silence(decoder.codec) < old(Silence(decoder.codec)))
    {
      hide InStep, Waiting, Silence, Reported, TrackAll, Accepted, VerifiedDecoder.Tracks, CodecFootprint;
      var stepped := decoder.Step(remaining, taken, decoded);
      if stepped.Err? {
        StillHopeless(taken);
        return Err(stepped.error);
      }
      var turn := stepped.value;
      var parsed := ParseBeside(turn.bytes, decoded, decoded + turn.bytes, remaining[turn.consumed..]);
      if parsed.Err? {
        if Broken(archive.Sizes(), decoded + turn.bytes) {
          BrokenIsHopeless(decoded + turn.bytes, remaining[turn.consumed..]);
        }
        return Err(parsed.error);
      }
      decoded := decoded + turn.bytes;
      r := Ok(turn);
    }

    lemma BrokenIsHopeless(decoded: seq<u8>, rest: seq<u8>)
      requires decoder.Tracks(taken, decoded, rest) && Broken(archive.Sizes(), decoded)
      ensures Hopeless(taken)
    {
      hide InStep, Encodes, Complete, Broken;
      forall later: seq<u8>, content: seq<u8>
        ensures !Good(taken + later, content)
      {
        if Encodes(decoder.codec, taken + later, content) {
          DecodedIsPrefix(decoder.codec, taken, decoded, rest, later, content);
          BrokenStays(archive.Sizes(), decoded, content);
        }
      }
    }

    /** Parsing does not disturb the decoder. */
    method ParseBeside(bytes: seq<u8>, ghost before: seq<u8>, ghost after: seq<u8>, ghost rest: seq<u8>)
      returns (r: Result<(), ApplyError>)
      requires Apart() && TrackAll(sink.log) == Some(Inside) && Reported(archive, before, Accepted(sink.log))
      requires decoder.Tracks(taken, after, rest)
      modifies archive, archive.header, archive.path, archive.link, archive.pax, sink
      ensures decoder.Tracks(taken, after, rest)
      ensures Waiting(decoder.codec) == old(Waiting(decoder.codec))
          && Silence(decoder.codec) == old(Silence(decoder.codec))
      ensures
        match r
        case Err(e) => (e.SinkRefused? || e.Archive?) && Blames(e, Broken(archive.Sizes(), before + bytes))
        case Ok(_) => TrackAll(sink.log) == Some(Inside) && Reported(archive, before + bytes, Accepted(sink.log))
    {
      hide InStep, Waiting, Silence, Reported, TrackAll, Accepted, Broken, Blames, CodecFootprint,
          VerifiedDecoder.Footprint, VerifiedDecoder.Tracks;
      decoder.HoldsCodec();
      r := Parse(bytes, before);
    }

    /** Decodes a fragment and parses what comes out. The complaint about stalling cannot occur. */
    method Feed(input: seq<u8>) returns (r: Result<(), ApplyError>)
      requires Underway([])
      modifies Footprint()
      ensures state == Applying && Apart() && taken == old(taken) + input
      ensures
        match r
        case Err(e) => Blames(e, Hopeless(taken))
        case Ok(_) => Underway([])
    {
      hide Silence, Waiting, Underway, TrackAll, Apart, Hopeless, Blames;
      var _ :- Receive(input);
      var remaining := input;
      var turnsWithoutBytes := 0;
      SilenceBound(decoder.codec);
      while remaining != []
        invariant Underway(remaining) && taken == old(taken) + input
        invariant turnsWithoutBytes + Silence(decoder.codec) <= 11
        decreases |remaining|, Silence(decoder.codec)
      {
        var turn :- Advance(remaining);
        if turn.consumed == 0 {
          turnsWithoutBytes := turnsWithoutBytes + 1;
          assert turnsWithoutBytes <= 16;
          assert remaining[0..] == remaining;
        } else {
          turnsWithoutBytes := 0;
          SilenceBound(decoder.codec);
        }
        remaining := remaining[turn.consumed..];
      }
      UnderwayIsApart(remaining);
      r := Ok(());
    }

    method Receive(input: seq<u8>) returns (r: Result<(), ApplyError>)
      requires Underway([])
      modifies Footprint()
      ensures state == Applying && Apart() && taken == old(taken) + input
      ensures
        match r
        case Err(e) => Blames(e, Hopeless(taken))
        case Ok(_) => Underway(input)
    {
      hide InStep, Reported, TrackAll, Accepted, VerifiedDecoder.Hopeless, Hopeless;
      ghost var before := taken;
      taken := taken + input;
      r := decoder.Take(input, before, decoded);
      if r.Err? {
        StillHopeless(taken);
      }
    }

    lemma UnderwayIsApart(rest: seq<u8>)
      requires Underway(rest)
      ensures state == Applying && Apart()
    {
    }

    /** Gives up the transaction. */
    method Fail(error: ApplyError, ghost bad: bool)
      requires Apart() && state == Applying && Blames(error, bad)
      modifies `state, sink
      ensures Valid() && sink.log == old(sink.log) + [Abort] && Failing(error, bad)
    {
      hide TrackAll, Turned, CodecFootprint, VerifiedDecoder.Footprint;
      HoldsDecoder();
      TrackNext(sink.log, Abort);
      TurnedIsRefused(sink.log);
      TurnedNext(sink.log, Abort);
      sink.AbortLayer();
      state := Failed;
    }

    method BeginTransaction() returns (accepted: bool)
      requires Valid() && state == Ready
      modifies `state, sink
      ensures sink.log == old(sink.log) + [Begin(accepted)] && Valid() && taken == old(taken)
      ensures if accepted then state == Applying && Underway([]) else state == Ready
    {
      hide TrackAll, Accepted, InStep, Reported, Applied, VerifiedDecoder.Genuine, CodecFootprint,
          VerifiedDecoder.Footprint, VerifiedDecoder.Tracks;
      HoldsDecoder();
      ghost var log := sink.log;
      accepted := sink.BeginLayer();
      TrackNext(log, Begin(accepted));
      AcceptedNext(log, Begin(accepted));
      if accepted {
        state := Applying;
      }
    }

    /** A fragment of the layer. Any failure aborts the transaction, and there is none without a reason: the sink has
        refused something, or no layer that begins with these bytes is good. */
    method Push(input: seq<u8>) returns (r: Result<(), ApplyError>)
      requires Valid()
      modifies Footprint()
      ensures Valid()
      ensures old(state) == Failed || old(state) == Finished
          ==> r == Err(InvalidState) && state == old(state) && sink.log == old(sink.log)
      ensures old(state) == Ready || old(state) == Applying ==>
        match r
        case Ok(_) => state == Applying && taken == old(taken) + input
        case Err(e) =>
          if old(state) == Ready && state == Ready then e == SinkRefused && sink.log == old(sink.log) + [Begin(false)]
          else taken == old(taken) + input && Failing(e, Hopeless(taken))
    {
      hide TrackAll, Accepted, InStep, Reported, Applied, Underway, VerifiedDecoder.Tracks, Hopeless, Turned,
          CodecFootprint, VerifiedDecoder.Footprint;
      HoldsDecoder();
      if state == Failed || state == Finished {
        return Err(InvalidState);
      }
      if state == Ready {
        var accepted := BeginTransaction();
        if !accepted {
          return Err(SinkRefused);
        }
      } else {
        ApplyingIsUnderway();
      }
      var fed := Feed(input);
      if fed.Err? {
        Fail(fed.error, Hopeless(taken));
        return Err(fed.error);
      }
      UnderwayIsValid();
      r := Ok(());
    }

    lemma ApplyingIsUnderway()
      requires Valid() && state == Applying
      ensures Underway([])
    {
    }

    lemma UnderwayIsValid()
      requires Underway([])
      ensures Valid() && state == Applying
    {
    }

    /** Hands out what the decoder still holds. */
    method Drain() returns (r: Result<(), ApplyError>)
      requires Underway([])
      modifies Footprint()
      ensures state == Applying && Apart() && taken == old(taken)
      ensures
        match r
        case Err(e) => Blames(e, Hopeless(taken))
        case Ok(_) => Underway([]) && Waiting(decoder.codec)
    {
      hide Silence, Waiting, Underway, TrackAll, Apart, Hopeless, Blames;
      var done := false;
      var nothing: seq<u8> := [];
      while !done
        invariant Underway(nothing) && taken == old(taken) && (done ==> Waiting(decoder.codec))
        decreases !done, Silence(decoder.codec)
      {
        var turn :- Advance(nothing);
        assert nothing[turn.consumed..] == nothing;
        done := turn.needsInput;
      }
      UnderwayIsApart(nothing);
      r := Ok(());
    }

    /** All checks, then the commit. Only a genuine layer, with a complete archive, whose events the sink has all
        accepted, is ever committed (`Valid` says so of every finished applier), and every such layer is. */
    method Finish() returns (r: Result<(), ApplyError>)
      requires Valid()
      modifies Footprint()
      ensures Valid()
      ensures old(state) == Failed || old(state) == Finished
          ==> r == Err(InvalidState) && state == old(state) && sink.log == old(sink.log)
      ensures old(state) == Ready || old(state) == Applying ==>
        match r
        case Ok(_) => state == Finished && taken == old(taken) && !Turned(sink.log)
        case Err(e) =>
          if old(state) == Ready && state == Ready then e == SinkRefused && sink.log == old(sink.log) + [Begin(false)]
          else taken == old(taken) && Failing(e, Bad(taken))
    {
      hide TrackAll, Accepted, InStep, Reported, Applied, Underway, VerifiedDecoder.Tracks, Waiting, Hopeless, Bad,
          Turned, CodecFootprint, VerifiedDecoder.Footprint;
      HoldsDecoder();
      if state == Ready {
        var accepted := BeginTransaction();
        if !accepted {
          return Err(SinkRefused);
        }
      } else if state == Applying {
        ApplyingIsUnderway();
      }
      if state != Applying {
        return Err(InvalidState);
      }
      var drained := Drain();
      if drained.Err? {
        if Hopeless(taken) {
          HopelessIsBad(taken);
        }
        Fail(drained.error, Bad(taken));
        return Err(drained.error);
      }
      r := CheckAndCommit();
    }

    /** These bytes are no layer that should be applied. */
    ghost predicate Bad(taken: seq<u8>)
    {
      forall content :: !Good(taken, content)
    }

    lemma HopelessIsBad(taken: seq<u8>)
      requires Hopeless(taken)
      ensures Bad(taken)
    {
      hide Good;
      assert taken + [] == taken;
    }

    method CheckAndCommit() returns (r: Result<(), ApplyError>)
      requires Underway([]) && Waiting(decoder.codec)
      modifies `state, sink
      ensures Valid() && taken == old(taken)
      ensures
        match r
        case Ok(_) => state == Finished && !Turned(sink.log)
        case Err(e) => Failing(e, Bad(taken))
    {
      hide TrackAll, Accepted, InStep, Reported, Applied, Complete, VerifiedDecoder.Tracks, VerifiedDecoder.Genuine,
          VerifiedDecoder.Check, Waiting, Turned, CodecFootprint, VerifiedDecoder.Footprint;
      HoldsDecoder();
      decoder.CheckedIsGenuine(taken, decoded);
      var checked := decoder.Check();
      if checked.Err? {
        decoder.CheckNeverStalls();
        Fail(checked.error, Bad(taken));
        return Err(checked.error);
      }
      ReportedIsValid(archive, decoded, Accepted(sink.log));
      CompleteIsFinished(archive, decoded, Accepted(sink.log));
      var complete := archive.Finish();
      if complete.Err? {
        Fail(ArchiveFinish(complete.error), Bad(taken));
        return Err(ArchiveFinish(complete.error));
      }
      CompleteIsApplied(archive, decoded, Accepted(sink.log));
      ghost var log := sink.log;
      var committed := sink.CommitLayer();
      TrackNext(log, Commit(committed));
      AcceptedNext(log, Commit(committed));
      if !committed {
        Fail(SinkRefused, false);
        return Err(SinkRefused);
      }
      TurnedIsRefused(log);
      TurnedNext(log, Commit(true));
      state := Finished;
      r := Ok(());
    }
  }

  lemma ReportedIsValid(archive: TarParser.Archive, decoded: seq<u8>, events: seq<TarArchive.Event>)
    requires Reported(archive, decoded, events)
    ensures archive.Valid()
  {
  }

  lemma CompleteIsApplied(archive: TarParser.Archive, decoded: seq<u8>, events: seq<TarArchive.Event>)
    requires Reported(archive, decoded, events) && TarArchive.FinishOf(archive.View()) == Ok(())
    ensures Applied(archive.Sizes(), decoded, events)
  {
    hide TarArchive.Run, TarArchive.FinishOf, TarArchive.FollowAll, TarParser.Explode;
    TarArchive.AcceptedArchive(decoded, archive.Sizes());
    TarParser.ExplodeFollows(TarArchive.Between, events);
  }

  /** The archive has reported all of its bytes: whether they are complete is up to its own final check. */
  lemma CompleteIsFinished(archive: TarParser.Archive, decoded: seq<u8>, events: seq<TarArchive.Event>)
    requires Reported(archive, decoded, events)
    ensures Complete(archive.Sizes(), decoded) <==> TarArchive.FinishOf(archive.View()) == Ok(())
  {
  }

  /** A complete archive. */
  ghost predicate Complete(sizes: TarArchive.Capacity, content: seq<u8>)
  {
    var end := TarArchive.Run(TarArchive.START, content, sizes).end;
    end.Ok? && TarArchive.FinishOf(end.value) == Ok(())
  }

  /** No archive: an error has occurred. */
  ghost predicate Broken(sizes: TarArchive.Capacity, content: seq<u8>)
  {
    TarArchive.Run(TarArchive.START, content, sizes).end.Err?
  }

  /** Nothing that follows repairs an archive. */
  lemma BrokenStays(sizes: TarArchive.Capacity, front: seq<u8>, content: seq<u8>)
    requires Broken(sizes, front) && front <= content
    ensures !Complete(sizes, content)
  {
    hide TarArchive.Run;
    TarArchive.RunConcat(TarArchive.START, front, content[|front|..], sizes);
    assert front + content[|front|..] == content;
  }

  /** The decoded bytes are a complete archive, and the events are all of its events. */
  ghost predicate Applied(sizes: TarArchive.Capacity, decoded: seq<u8>, events: seq<TarArchive.Event>)
  {
    && Complete(sizes, decoded)
    && TarParser.Explode(events) == TarArchive.Run(TarArchive.START, decoded, sizes).events
    && TarArchive.FollowAll(TarArchive.Between, events) == Some(TarArchive.Between)
  }

  // ----- a whole layer

  /** Applies a layer from its fragments, up to the first error. Unless the sink refuses something, it is committed
      if and only if it is good, and how it was cut does not matter. */
  method ApplyLayer(applier: LayerApplier, fragments: seq<seq<u8>>) returns (r: Result<(), ApplyError>)
    requires applier.Valid() && applier.state == Ready
    modifies applier.Footprint()
    ensures applier.Valid()
    ensures
      var all := Flatten(fragments);
      match r
      case Ok(_) =>
        && applier.state == Finished && applier.taken == all && applier.Good(all, applier.decoded)
        && !Turned(applier.sink.log)
      case Err(e) =>
        if applier.state == Ready then
            e == SinkRefused && applier.sink.log != [] && applier.sink.log[|applier.sink.log| - 1] == Begin(false)
        else applier.Failing(e, applier.Bad(all))
  {
    hide LayerApplier.Valid, LayerApplier.Good, LayerApplier.Hopeless, LayerApplier.Bad, Turned, CodecFootprint,
        VerifiedDecoder.Footprint;
    StartsEmpty(applier);
    for i := 0 to |fragments|
      invariant applier.Valid() && applier.taken == Flatten(fragments[..i])
      invariant applier.state == Applying || (i == 0 && applier.state == Ready)
    {
      FlattenNext(fragments, i);
      var pushed := applier.Push(fragments[i]);
      if pushed.Err? {
        if applier.Hopeless(applier.taken) {
          HopelessStays(applier, applier.taken, Flatten(fragments[i + 1..]));
        }
        return pushed;
      }
    }
    assert fragments[..|fragments|] == fragments;
    r := applier.Finish();
    if r.Ok? {
      FinishedIsGood(applier);
    }
  }

  lemma StartsEmpty(applier: LayerApplier)
    requires applier.Valid() && applier.state == Ready
    ensures applier.taken == []
  {
  }

  lemma FinishedIsGood(applier: LayerApplier)
    requires applier.Valid() && applier.state == Finished
    ensures applier.Good(applier.taken, applier.decoded)
  {
  }

  lemma HopelessStays(applier: LayerApplier, taken: seq<u8>, later: seq<u8>)
    requires applier.Hopeless(taken)
    ensures applier.Bad(taken + later)
  {
    hide LayerApplier.Good;
  }
}
