/** The states of the resumable decoder (zstd-zero/src/lib.rs lines 150-167 and
    413-568), free of buffers: what it has collected, and what it still owes its
    caller. Every step of the decoder is one of the transitions proved here,
    and each keeps the outcome of the whole stream. */
module ZstdMachine {
  import opened Numbers
  import opened Results
  import opened ZstdErrors
  import opened ZstdBlock
  import opened ZstdStream

  datatype Phase =
    | AtHeader(collected: seq<u8>)
    | AtSkip(remaining: nat)
    | AtBlock(frame: Frame, collected: seq<u8>)
    | AtPayload(frame: Frame, header: BlockHeader, collected: seq<u8>)
    | AtChecksum(frame: Frame, collected: seq<u8>)
    | AtEnd

  /** `pending` holds decoded bytes that the caller has not seen yet. */
  datatype Machine = Machine(phase: Phase, pending: seq<u8>, completed: nat)

  const START := Machine(AtHeader([]), [], 0)

  /** The decoder never collects more than its phase asks for. */
  ghost predicate Coherent(phase: Phase)
  {
    match phase
    case AtHeader(bytes) =>
      |bytes| <= MAX_FRAME_HEADER_SIZE
      && (InspectFrame(bytes).Ok? && InspectFrame(bytes).value.Complete? ==> InspectFrame(bytes).value.size == |bytes|)
    case AtBlock(frame, bytes) => Sound(frame) && |bytes| <= 3
    case AtPayload(frame, header, bytes) => Sound(frame) && |bytes| <= header.PayloadSize()
    case AtChecksum(frame, bytes) => Sound(frame) && |bytes| <= 4
    case _ => true
  }

  /** How many more bytes the phase needs before it can take a decision. */
  ghost function Missing(phase: Phase): nat
    requires Coherent(phase)
  {
    match phase
    case AtHeader(bytes) =>
      (match InspectFrame(bytes)
       case Ok(NeedMore(minimum)) => minimum - |bytes|
       case _ => 0)
    case AtSkip(remaining) => remaining
    case AtBlock(_, bytes) => 3 - |bytes|
    case AtPayload(_, header, bytes) => header.PayloadSize() - |bytes|
    case AtChecksum(_, bytes) => 4 - |bytes|
    case AtEnd => 0
  }

  /** What decoding from this phase on yields, if `rest` is all that follows. */
  ghost function Meaning(env: Environment, phase: Phase, completed: nat, rest: seq<u8>): Outcome
    requires Coherent(phase)
  {
    match phase
    case AtHeader(bytes) => DecodeFrames(env, bytes + rest, completed)
    case AtSkip(remaining) => AfterSkip(env, rest, remaining, completed)
    case AtBlock(frame, bytes) => DecodeBlocks(env, bytes + rest, frame, completed)
    case AtPayload(frame, header, bytes) => DecodePayload(env, bytes + rest, frame, header, completed)
    case AtChecksum(frame, bytes) => DecodeChecksum(env, bytes + rest, frame, completed)
    case AtEnd => EndFrame(env, rest, completed)
  }

  ghost function Future(env: Environment, m: Machine, rest: seq<u8>): Outcome
    requires Coherent(m.phase)
  {
    Meaning(env, m.phase, m.completed, rest).After(m.pending)
  }

  /** Going from `before` to `after`, with `delivered` handed to the caller and `rest` of the input left,
      changes nothing about the stream, whatever comes behind this input. */
  ghost predicate Simulates(env: Environment, before: Machine, input: seq<u8>, delivered: seq<u8>, after: Machine,
      rest: seq<u8>)
  {
    && Coherent(before.phase) && Coherent(after.phase)
    && forall more: seq<u8> :: Future(env, before, input + more) == Future(env, after, rest + more).After(delivered)
  }

  /** The stream is rejected, whatever comes behind this input, and nothing more is delivered. */
  ghost predicate Fails(env: Environment, before: Machine, input: seq<u8>, error: DecodeError)
  {
    && Coherent(before.phase)
    && forall more: seq<u8> :: Future(env, before, input + more) == Stop(error)
  }

  // ----- composing steps

  lemma NoStep(env: Environment, m: Machine, input: seq<u8>)
    requires Coherent(m.phase)
    ensures Simulates(env, m, input, [], m, input)
  {
    hide Meaning, Coherent;
    forall more: seq<u8>
      ensures Future(env, m, input + more) == Future(env, m, input + more).After([])
    {
      assert [] + Future(env, m, input + more).output == Future(env, m, input + more).output;
    }
  }

  lemma ThenStep(env: Environment, a: Machine, x: seq<u8>, b: Machine, y: seq<u8>, delivered: seq<u8>, c: Machine,
      z: seq<u8>)
    requires Simulates(env, a, x, [], b, y) && Simulates(env, b, y, delivered, c, z)
    ensures Simulates(env, a, x, delivered, c, z)
  {
    hide Future, Coherent;
    forall more: seq<u8>
      ensures Future(env, a, x + more) == Future(env, c, z + more).After(delivered)
    {
      var f := Future(env, b, y + more);
      assert [] + f.output == f.output;
    }
  }

  lemma DeliveringSteps(env: Environment, a: Machine, x: seq<u8>, first: seq<u8>, b: Machine, y: seq<u8>,
      second: seq<u8>, c: Machine, z: seq<u8>)
    requires Simulates(env, a, x, first, b, y) && Simulates(env, b, y, second, c, z)
    ensures Simulates(env, a, x, first + second, c, z)
  {
    hide Future, Coherent;
    forall more: seq<u8>
      ensures Future(env, a, x + more) == Future(env, c, z + more).After(first + second)
    {
      var f := Future(env, c, z + more);
      assert Future(env, b, y + more) == f.After(second);
      assert first + (second + f.output) == (first + second) + f.output;
    }
  }

  lemma ThenFails(env: Environment, a: Machine, x: seq<u8>, b: Machine, y: seq<u8>, error: DecodeError)
    requires Simulates(env, a, x, [], b, y) && Fails(env, b, y, error)
    ensures Fails(env, a, x, error)
  {
    hide Future, Coherent;
    forall more: seq<u8>
      ensures Future(env, a, x + more) == Stop(error)
    {
      assert Future(env, b, y + more) == Stop(error);
    }
  }

  // ----- collecting bytes

  /** The phase with k more bytes of input collected, or skipped. */
  ghost function Fed(phase: Phase, bytes: seq<u8>): Phase
    requires Coherent(phase) && |bytes| <= Missing(phase)
  {
    match phase
    case AtHeader(collected) => AtHeader(collected + bytes)
    case AtSkip(remaining) => AtSkip(remaining - |bytes|)
    case AtBlock(frame, collected) => AtBlock(frame, collected + bytes)
    case AtPayload(frame, header, collected) => AtPayload(frame, header, collected + bytes)
    case AtChecksum(frame, collected) => AtChecksum(frame, collected + bytes)
    case AtEnd => AtEnd
  }

  lemma FeedingIsCoherent(phase: Phase, bytes: seq<u8>)
    requires Coherent(phase) && |bytes| <= Missing(phase)
    ensures Coherent(Fed(phase, bytes))
  {
    hide InspectFrame, Sound;
    match phase
    case AtHeader(collected) =>
      var status := InspectFrame(collected);
      assert (status.Ok? && status.value.NeedMore?) || bytes == [];
      if status.Ok? && status.value.NeedMore? {
        assert |collected| < status.value.minimum <= MAX_FRAME_HEADER_SIZE by { NeedMoreBounds(collected); }
        FilledHeaderIsTight(collected, bytes);
      } else {
        assert collected + bytes == collected;
      }
    case _ =>
  }

  lemma NeedMoreBounds(input: seq<u8>)
    requires InspectFrame(input).Ok? && InspectFrame(input).value.NeedMore?
    ensures |input| < InspectFrame(input).value.minimum <= MAX_FRAME_HEADER_SIZE
  {
  }

  /** Collecting bytes that the phase asks for, in any portions, is invisible. */
  lemma Feed(env: Environment, m: Machine, input: seq<u8>, k: nat)
    requires Coherent(m.phase) && k <= |input| && k <= Missing(m.phase)
    ensures Coherent(Fed(m.phase, input[..k]))
    ensures Simulates(env, m, input, [], m.(phase := Fed(m.phase, input[..k])), input[k..])
  {
    hide Missing, Coherent, Meaning;
    FeedingIsCoherent(m.phase, input[..k]);
    var after := m.(phase := Fed(m.phase, input[..k]));
    forall more: seq<u8>
      ensures Future(env, m, input + more) == Future(env, after, input[k..] + more).After([])
    {
      FeedMeaning(env, m.phase, m.completed, input, k, more);
      assert [] + Future(env, after, input[k..] + more).output == Future(env, after, input[k..] + more).output;
    }
  }

  lemma FeedMeaning(env: Environment, phase: Phase, completed: nat, input: seq<u8>, k: nat, more: seq<u8>)
    requires Coherent(phase) && k <= |input| && k <= Missing(phase) && Coherent(Fed(phase, input[..k]))
    ensures Meaning(env, phase, completed, input + more)
        == Meaning(env, Fed(phase, input[..k]), completed, input[k..] + more)
  {
    hide DecodeFrames, DecodeBlocks, DecodePayload, DecodeChecksum, InspectFrame, Sound, EndFrame;
    match phase
    case AtHeader(collected) => Regroup(collected, input, k, more);
    case AtSkip(remaining) => SkipPart(input, k, more, remaining);
    case AtBlock(_, collected) => Regroup(collected, input, k, more);
    case AtPayload(_, _, collected) => Regroup(collected, input, k, more);
    case AtChecksum(_, collected) => Regroup(collected, input, k, more);
    case AtEnd => assert input[0..] == input;
  }

  lemma Regroup(collected: seq<u8>, input: seq<u8>, k: nat, more: seq<u8>)
    requires k <= |input|
    ensures collected + (input + more) == (collected + input[..k]) + (input[k..] + more)
  {
  }

  lemma SkipPart(input: seq<u8>, k: nat, more: seq<u8>, size: nat)
    requires k <= |input| && k <= size
    ensures |input + more| - size == |input[k..] + more| - (size - k)
    ensures |input + more| >= size ==> (input + more)[size..] == (input[k..] + more)[size - k..]
  {
  }

  // ----- deciding

  /** A phase that has its bytes decides: an error, or the next phase with the bytes it owes. */
  ghost function Decide(env: Environment, phase: Phase, completed: nat): (r: Result<Machine, DecodeError>)
    requires Coherent(phase) && Missing(phase) == 0
    ensures r.Ok? ==> Coherent(r.value.phase)
  {
    hide InspectFrame, AfterBlock, CheckFrame, AcceptBlock, StartFrame, Sound;
    match phase
    case AtHeader(bytes) =>
      HeaderReady(bytes);
      var status :- InspectFrame(bytes);
      (match status.header
       case Skippable(_, size) => Ok(Machine(AtSkip(size), [], completed))
       case Zstandard(header) =>
         var frame :- StartFrame(header, env);
         Ok(Machine(AtBlock(frame, []), [], completed)))
    case AtSkip(_) => Ok(Machine(AtEnd, [], completed))
    case AtBlock(frame, bytes) =>
      var header :- AcceptBlock(env, bytes, frame);
      Ok(Machine(AtPayload(frame, header, []), [], completed))
    case AtPayload(frame, header, bytes) =>
      var after :- AfterBlock(env, header, bytes, frame);
      var phase :=
        if !header.last then AtBlock(after, [])
        else if frame.header.hasChecksum then AtChecksum(after, [])
        else AtEnd;
      Ok(Machine(phase, after.carried.out[|frame.carried.out|..], completed))
    case AtChecksum(frame, bytes) =>
      var _ :- CheckFrame(env, bytes, frame);
      Ok(Machine(AtEnd, [], completed))
    case AtEnd =>
      EmptyHeaderIsCoherent();
      if completed >= U64_MAX then Err(ArithmeticOverflow) else Ok(Machine(AtHeader([]), [], completed + 1))
  }

  lemma HeaderReady(bytes: seq<u8>)
    requires Coherent(AtHeader(bytes)) && Missing(AtHeader(bytes)) == 0
    ensures InspectFrame(bytes).Ok? ==> InspectFrame(bytes).value.Complete? && InspectFrame(bytes).value.size == |bytes|
  {
  }

  lemma EmptyHeaderIsCoherent()
    ensures Coherent(AtHeader([])) && Missing(AtHeader([])) == 4
  {
  }

  /** Deciding is what the one-shot decoder does at the same place. */
  lemma Decided(env: Environment, phase: Phase, completed: nat, rest: seq<u8>)
    requires Coherent(phase) && Missing(phase) == 0
    ensures
      match Decide(env, phase, completed)
      case Err(e) => Meaning(env, phase, completed, rest) == Stop(e)
      case Ok(after) => Meaning(env, phase, completed, rest) == Future(env, after, rest)
  {
    hide InspectFrame, AfterBlock, CheckFrame, AcceptBlock, StartFrame, Sound;
    var meaning := Meaning(env, phase, completed, rest);
    match phase
    case AtHeader(bytes) => HeaderDecided(env, bytes, completed, rest);
    case AtSkip(_) => assert rest[0..] == rest;
    case AtBlock(frame, bytes) => BlockDecided(env, frame, bytes, completed, rest);
    case AtPayload(frame, header, bytes) => PayloadDecided(env, frame, header, bytes, completed, rest);
    case AtChecksum(frame, bytes) => ChecksumDecided(env, frame, bytes, completed, rest);
    case AtEnd => assert [] + rest == rest;
    if Decide(env, phase, completed).Ok? {
      assert [] + Future(env, Decide(env, phase, completed).value, rest).output
          == Future(env, Decide(env, phase, completed).value, rest).output;
    }
  }

  lemma HeaderDecided(env: Environment, bytes: seq<u8>, completed: nat, rest: seq<u8>)
    requires Coherent(AtHeader(bytes)) && Missing(AtHeader(bytes)) == 0
    ensures
      match Decide(env, AtHeader(bytes), completed)
      case Err(e) => DecodeFrames(env, bytes + rest, completed) == Stop(e)
      case Ok(after) => DecodeFrames(env, bytes + rest, completed) == Future(env, after, rest)
  {
    hide InspectFrame, StartFrame, Sound, DecodeBlocks, AfterSkip;
    HeaderReady(bytes);
    InspectDecided(bytes, rest);
    assert (bytes + rest)[|bytes|..] == rest;
    assert [] + rest == rest;
    if Decide(env, AtHeader(bytes), completed).Ok? {
      var after := Decide(env, AtHeader(bytes), completed).value;
      assert [] + Future(env, after, rest).output == Future(env, after, rest).output;
    }
  }

  lemma BlockDecided(env: Environment, frame: Frame, bytes: seq<u8>, completed: nat, rest: seq<u8>)
    requires Coherent(AtBlock(frame, bytes)) && |bytes| == 3
    ensures
      match Decide(env, AtBlock(frame, bytes), completed)
      case Err(e) => DecodeBlocks(env, bytes + rest, frame, completed) == Stop(e)
      case Ok(after) => DecodeBlocks(env, bytes + rest, frame, completed) == Future(env, after, rest)
  {
    hide AcceptBlock, Sound, DecodePayload;
    assert (bytes + rest)[..3] == bytes && (bytes + rest)[3..] == rest;
    assert [] + rest == rest;
    if AcceptBlock(env, bytes, frame).Ok? {
      var later := DecodePayload(env, rest, frame, AcceptBlock(env, bytes, frame).value, completed);
      assert [] + later.output == later.output;
    }
  }

  lemma PayloadDecided(env: Environment, frame: Frame, header: BlockHeader, bytes: seq<u8>, completed: nat,
      rest: seq<u8>)
    requires Coherent(AtPayload(frame, header, bytes)) && |bytes| == header.PayloadSize()
    ensures
      match Decide(env, AtPayload(frame, header, bytes), completed)
      case Err(e) => DecodePayload(env, bytes + rest, frame, header, completed) == Stop(e)
      case Ok(after) => DecodePayload(env, bytes + rest, frame, header, completed) == Future(env, after, rest)
  {
    hide AfterBlock, Sound, DecodeBlocks, DecodeChecksum, EndFrame;
    assert (bytes + rest)[..|bytes|] == bytes && (bytes + rest)[|bytes|..] == rest;
    assert [] + rest == rest;
  }

  lemma ChecksumDecided(env: Environment, frame: Frame, bytes: seq<u8>, completed: nat, rest: seq<u8>)
    requires Coherent(AtChecksum(frame, bytes)) && |bytes| == 4
    ensures
      match Decide(env, AtChecksum(frame, bytes), completed)
      case Err(e) => DecodeChecksum(env, bytes + rest, frame, completed) == Stop(e)
      case Ok(after) => DecodeChecksum(env, bytes + rest, frame, completed) == Future(env, after, rest)
  {
    hide CheckFrame, Sound, EndFrame;
    assert (bytes + rest)[..4] == bytes && (bytes + rest)[4..] == rest;
    var later := EndFrame(env, rest, completed);
    assert [] + later.output == later.output;
  }

  lemma Step(env: Environment, m: Machine, input: seq<u8>)
    requires Coherent(m.phase) && Missing(m.phase) == 0 && m.pending == []
    ensures
      match Decide(env, m.phase, m.completed)
      case Err(e) => Fails(env, m, input, e)
      case Ok(after) => Simulates(env, m, input, [], after, input)
  {
    hide Coherent, Missing, Meaning, Decide;
    forall more: seq<u8>
      ensures
        match Decide(env, m.phase, m.completed)
        case Err(e) => Future(env, m, input + more) == Stop(e)
        case Ok(after) => Future(env, m, input + more) == Future(env, after, input + more).After([])
    {
      Decided(env, m.phase, m.completed, input + more);
      var meaning := Meaning(env, m.phase, m.completed, input + more);
      assert [] + meaning.output == meaning.output;
    }
  }

  /** Collect what the input offers; decide if that is enough. */
  ghost function Consume(env: Environment, m: Machine, input: seq<u8>): (r: Result<Machine, DecodeError>)
    requires Coherent(m.phase)
    ensures r.Ok? ==> Coherent(r.value.phase)
  {
    hide Coherent, Missing, Fed, Decide;
    var k := Min(Missing(m.phase), |input|);
    FeedingIsCoherent(m.phase, input[..k]);
    if k < Missing(m.phase) then Ok(m.(phase := Fed(m.phase, input[..k])))
    else if Missing(Fed(m.phase, input[..k])) > 0 then Ok(m.(phase := Fed(m.phase, input[..k])))
    else Decide(env, Fed(m.phase, input[..k]), m.completed)
  }

  lemma ConsumeSimulates(env: Environment, m: Machine, input: seq<u8>)
    requires Coherent(m.phase) && m.pending == []
    ensures
      match Consume(env, m, input)
      case Err(e) => Fails(env, m, input, e)
      case Ok(after) => Simulates(env, m, input, [], after, input[Min(Missing(m.phase), |input|)..])
  {
    hide Coherent, Missing, Fed, Decide, Simulates, Fails;
    var k := Min(Missing(m.phase), |input|);
    var fed := m.(phase := Fed(m.phase, input[..k]));
    Feed(env, m, input, k);
    if k == Missing(m.phase) && Missing(fed.phase) == 0 {
      Step(env, fed, input[k..]);
      match Decide(env, fed.phase, m.completed)
      case Err(e) => ThenFails(env, m, input, fed, input[k..], e);
      case Ok(after) => ThenStep(env, m, input, fed, input[k..], [], after, input[k..]);
    }
  }

  // ----- progress

  /** Phases by how many decisions they can take without input. */
  ghost function Rank(phase: Phase): nat
  {
    match phase
    case AtHeader(_) => 0
    case AtEnd => 1
    case AtBlock(_, _) => 2
    case AtChecksum(_, _) => 2
    case AtPayload(_, _, _) => 3
    case AtSkip(_) => 3
  }

  lemma FedIsStillMissing(phase: Phase, bytes: seq<u8>)
    requires Coherent(phase) && |bytes| < Missing(phase)
    ensures Coherent(Fed(phase, bytes)) && Missing(Fed(phase, bytes)) == Missing(phase) - |bytes|
  {
    hide InspectFrame, Sound;
    FeedingIsCoherent(phase, bytes);
    if phase.AtHeader? {
      FilledHeaderIsTight(phase.collected, bytes);
    }
  }

  /** What a step of the decoder tells its caller. */
  datatype Event = Move | Wait | Started | Finished | Delivered

  /** A step that keeps the outcome and gets somewhere. */
  ghost predicate Advanced(env: Environment, before: Machine, input: seq<u8>, after: Machine, rest: seq<u8>,
      event: Event)
  {
    && Simulates(env, before, input, [], after, rest)
    && |rest| <= |input| && rest == input[|input| - |rest|..]
    && match event
       case Move =>
         && (|rest| < |input| || Rank(after.phase) < Rank(before.phase))
         && (after.phase.AtHeader? ==> before.phase.AtHeader? && after.pending == [])
       case Wait => rest == [] && after.pending == [] && Missing(after.phase) > 0
       case Started =>
         && after.pending == [] && before.phase.AtHeader? && Missing(before.phase) == 0
         && !after.phase.AtHeader?
       case Finished => after.pending == [] && before.phase == AtEnd && after.phase == AtHeader([])
       case Delivered => false
  }

  /** Between headers: wait, or move on. */
  lemma ConsumeStep(env: Environment, m: Machine, input: seq<u8>)
    requires Coherent(m.phase) && m.pending == [] && !m.phase.AtHeader? && !m.phase.AtEnd?
    requires m.phase.AtBlock? ==> Missing(m.phase) > 0
    ensures
      var missing := Missing(m.phase);
      match Consume(env, m, input)
      case Err(e) => Fails(env, m, input, e)
      case Ok(after) =>
        Advanced(env, m, input, after, input[Min(missing, |input|)..], if |input| < missing then Wait else Move)
  {
    hide Simulates, Fails, AfterBlock, CheckFrame, AcceptBlock, Sound, Meaning;
    ConsumeSimulates(env, m, input);
    if |input| < Missing(m.phase) {
      FedIsStillMissing(m.phase, input);
      assert input[..|input|] == input;
    }
  }

  /** A header that lacks bytes collects them. */
  lemma HeaderGrows(env: Environment, m: Machine, input: seq<u8>)
    requires Coherent(m.phase) && m.pending == [] && m.phase.AtHeader? && Missing(m.phase) > 0
    ensures
      var k := Min(Missing(m.phase), |input|);
      && Coherent(Fed(m.phase, input[..k]))
      && Advanced(env, m, input, m.(phase := Fed(m.phase, input[..k])), input[k..],
          if |input| < Missing(m.phase) then Wait else Move)
  {
    hide Simulates, InspectFrame, Sound, Meaning;
    Feed(env, m, input, Min(Missing(m.phase), |input|));
    if |input| < Missing(m.phase) {
      FedIsStillMissing(m.phase, input);
      assert input[..|input|] == input;
    }
  }

  /** A complete header decides, and so does the end of a frame. */
  lemma HeaderStarts(env: Environment, m: Machine, input: seq<u8>)
    requires Coherent(m.phase) && m.pending == [] && m.phase.AtHeader? && Missing(m.phase) == 0
    ensures
      match Decide(env, m.phase, m.completed)
      case Err(e) => Fails(env, m, input, e)
      case Ok(after) => Advanced(env, m, input, after, input, Started)
  {
    hide Simulates, Fails, StartFrame, InspectFrame, Sound, Meaning;
    Step(env, m, input);
  }

  lemma FrameEnds(env: Environment, m: Machine, input: seq<u8>)
    requires m.phase == AtEnd && m.pending == []
    ensures Coherent(AtEnd) && Missing(AtEnd) == 0
    ensures
      match Decide(env, AtEnd, m.completed)
      case Err(e) => Fails(env, m, input, e)
      case Ok(after) => Advanced(env, m, input, after, input, Finished)
  {
    hide Simulates, Fails, Sound, Meaning;
    Step(env, m, input);
  }

  // ----- delivering

  lemma Deliver(env: Environment, m: Machine, first: seq<u8>, second: seq<u8>, input: seq<u8>)
    requires Coherent(m.phase) && m.pending == first + second
    ensures Simulates(env, m, input, first, m.(pending := second), input)
  {
    hide Coherent, Meaning;
    forall more: seq<u8>
      ensures Future(env, m, input + more) == Future(env, m.(pending := second), input + more).After(first)
    {
      var meaning := Meaning(env, m.phase, m.completed, input + more);
      assert (first + second) + meaning.output == first + (second + meaning.output);
    }
  }

  // ----- a call of the decoder: steps up to one that the caller sees

  /** A header is decided as soon as it can be. */
  ghost predicate Settled(phase: Phase)
    requires Coherent(phase)
  {
    phase.AtHeader? ==> Missing(phase) > 0
  }

  /** Where silent steps have led. */
  ghost predicate Reached(env: Environment, before: Machine, input: seq<u8>, now: Machine, rest: seq<u8>)
  {
    && Simulates(env, before, input, [], now, rest)
    && |rest| <= |input| && rest == input[|input| - |rest|..]
    && ((now == before && rest == input)
        || ((|rest| < |input| || Rank(now.phase) < Rank(before.phase))
            && (now.phase.AtHeader? ==> before.phase.AtHeader? && now.pending == [])))
  }

  /** What one call does: it keeps the outcome, and it makes progress. */
  ghost predicate Decoded(env: Environment, before: Machine, input: seq<u8>, bytes: seq<u8>, after: Machine,
      rest: seq<u8>, event: Event)
  {
    && Simulates(env, before, input, bytes, after, rest)
    && |rest| <= |input| && rest == input[|input| - |rest|..] && Settled(after.phase)
    && (bytes != [] <==> event == Delivered)
    && match event
       case Move => false
       case Wait => rest == [] && after.pending == [] && Missing(after.phase) > 0
       case Started => |rest| < |input| && after.pending == []
       case Finished =>
         after.pending == [] && after.phase == AtHeader([])
             && (|rest| < |input| || Rank(after.phase) < Rank(before.phase))
       case Delivered =>
         |rest| < |input| || Rank(after.phase) < Rank(before.phase)
             || (after.phase == before.phase && |after.pending| < |before.pending|)
  }

  lemma ReachSelf(env: Environment, m: Machine, input: seq<u8>)
    requires Coherent(m.phase)
    ensures Reached(env, m, input, m, input)
  {
    hide Simulates;
    NoStep(env, m, input);
  }

  lemma SuffixOfSuffix(a: seq<u8>, b: seq<u8>, c: seq<u8>)
    requires |c| <= |b| <= |a| && b == a[|a| - |b|..] && c == b[|b| - |c|..]
    ensures c == a[|a| - |c|..]
  {
  }

  lemma ReachMore(env: Environment, before: Machine, input: seq<u8>, now: Machine, rest: seq<u8>, after: Machine,
      left: seq<u8>)
    requires Reached(env, before, input, now, rest) && Advanced(env, now, rest, after, left, Move)
    ensures Reached(env, before, input, after, left)
  {
    hide Simulates, Missing, Coherent;
    ThenStep(env, before, input, now, rest, [], after, left);
    SuffixOfSuffix(input, rest, left);
  }

  lemma ReachEvent(env: Environment, before: Machine, input: seq<u8>, now: Machine, rest: seq<u8>, after: Machine,
      left: seq<u8>, event: Event)
    requires Coherent(before.phase) && Settled(before.phase)
    requires Reached(env, before, input, now, rest) && Advanced(env, now, rest, after, left, event) && event != Move
    ensures Decoded(env, before, input, [], after, left, event)
  {
    hide Simulates, Missing, Coherent;
    AdvancedIsCoherent(env, now, rest, after, left, event);
    ThenStep(env, before, input, now, rest, [], after, left);
    SuffixOfSuffix(input, rest, left);
    EmptyHeaderIsCoherent();
  }

  lemma AdvancedIsCoherent(env: Environment, now: Machine, rest: seq<u8>, after: Machine, left: seq<u8>, event: Event)
    requires Advanced(env, now, rest, after, left, event)
    ensures Coherent(now.phase) && Coherent(after.phase)
  {
  }

  lemma ReachDelivery(env: Environment, before: Machine, input: seq<u8>, now: Machine, rest: seq<u8>, first: seq<u8>,
      second: seq<u8>)
    requires Coherent(before.phase) && Settled(before.phase) && Coherent(now.phase)
    requires Reached(env, before, input, now, rest) && now.pending == first + second && first != []
    ensures Decoded(env, before, input, first, now.(pending := second), rest, Delivered)
  {
    hide Simulates, Missing, Coherent;
    Deliver(env, now, first, second, rest);
    ThenStep(env, before, input, now, rest, first, now.(pending := second), rest);
  }

  lemma ReachFailure(env: Environment, before: Machine, input: seq<u8>, now: Machine, rest: seq<u8>, error: DecodeError)
    requires Reached(env, before, input, now, rest) && Fails(env, now, rest, error)
    ensures Fails(env, before, input, error)
  {
    hide Simulates, Fails;
    ThenFails(env, before, input, now, rest, error);
  }

  // ----- a run of the decoder: calls, and what they deliver together

  /** The stream is rejected after `delivered`, whatever comes behind this input. */
  ghost predicate FailsAfter(env: Environment, before: Machine, input: seq<u8>, delivered: seq<u8>, error: DecodeError)
  {
    && Coherent(before.phase)
    && forall more: seq<u8> :: Future(env, before, input + more) == Stop(error).After(delivered)
  }

  lemma DeliverThenFail(env: Environment, a: Machine, x: seq<u8>, delivered: seq<u8>, b: Machine, y: seq<u8>,
      error: DecodeError)
    requires Simulates(env, a, x, delivered, b, y) && Fails(env, b, y, error)
    ensures FailsAfter(env, a, x, delivered, error)
  {
    hide Future, Coherent;
    forall more: seq<u8>
      ensures Future(env, a, x + more) == Stop(error).After(delivered)
    {
      assert Future(env, b, y + more) == Stop(error);
    }
  }

  /** Reading on in the next fragment. */
  lemma NextFragment(env: Environment, a: Machine, x: seq<u8>, first: seq<u8>, b: Machine, fragment: seq<u8>,
      second: seq<u8>, c: Machine)
    requires Simulates(env, a, x, first, b, []) && Simulates(env, b, fragment, second, c, [])
    ensures Simulates(env, a, x + fragment, first + second, c, [])
  {
    hide Future, Coherent;
    forall more: seq<u8>
      ensures Future(env, a, (x + fragment) + more) == Future(env, c, [] + more).After(first + second)
    {
      assert (x + fragment) + more == x + (fragment + more);
      assert [] + (fragment + more) == fragment + more;
      var f := Future(env, c, [] + more);
      assert first + (second + f.output) == (first + second) + f.output;
    }
  }

  lemma FailingFragment(env: Environment, a: Machine, x: seq<u8>, first: seq<u8>, b: Machine, fragment: seq<u8>,
      second: seq<u8>, error: DecodeError, later: seq<u8>)
    requires Simulates(env, a, x, first, b, []) && FailsAfter(env, b, fragment, second, error)
    ensures Future(env, a, (x + fragment) + later) == Outcome(first + second, Rejected(error))
  {
    hide Future, Coherent;
    assert (x + fragment) + later == x + (fragment + later);
    assert [] + (fragment + later) == fragment + later;
    assert first + (second + []) == first + second;
  }

  lemma LastFragment(env: Environment, a: Machine, x: seq<u8>, first: seq<u8>, b: Machine)
    requires Simulates(env, a, x, first, b, [])
    ensures Future(env, a, x) == Future(env, b, []).After(first)
  {
    hide Future, Coherent;
    var nothing: seq<u8> := [];
    assert x + nothing == x && nothing + nothing == nothing;
    assert Future(env, a, x + nothing) == Future(env, b, nothing + nothing).After(first);
  }

  // ----- the end of the input

  /** A machine that waits for more bytes accepts only between frames, and not before the first one. */
  lemma AtEndOfInput(env: Environment, m: Machine)
    requires Coherent(m.phase) && Missing(m.phase) > 0 && m.pending == []
    ensures Future(env, m, []) == if m.phase == AtHeader([]) && m.completed > 0 then Outcome([], Accepted)
        else Stop(UnexpectedEof)
  {
    hide InspectFrame, Sound;
    var meaning := Meaning(env, m.phase, m.completed, []);
    assert [] + meaning.output == meaning.output;
    match m.phase
    case AtHeader(bytes) => assert bytes + [] == bytes;
    case AtBlock(_, bytes) => assert bytes + [] == bytes;
    case AtPayload(_, _, bytes) => assert bytes + [] == bytes;
    case AtChecksum(_, bytes) => assert bytes + [] == bytes;
    case _ =>
  }
}
