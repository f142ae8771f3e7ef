/** Whole frames (zstd-zero/src/lib.rs lines 500-568 and 771-781): what a stream
    that is accepted must have contained. */
module ZstdFrames {
  import opened Numbers
  import opened Results
  import opened ZstdBits
  import opened ZstdBlock
  import opened ZstdStream

  /** One frame's regenerated content, and how much of the input it took. */
  datatype Part = Part(content: seq<u8>, used: nat)

  /** What a frame that began with `frame` may regenerate: `part` continues its output, and
      together they have the declared size and match the checksum, if there is one. */
  ghost predicate Completes(env: Environment, input: seq<u8>, frame: Frame, part: Part)
  {
    var out := frame.carried.out + part.content;
    && part.used <= |input|
    && (frame.header.contentSize.Some? ==> frame.header.contentSize.value == |out|)
    && (frame.header.hasChecksum ==>
          part.used >= 4 && LittleEndian(input[part.used - 4..part.used]) == env.xxh64(out) % 0x1_0000_0000)
  }

  /** An accepted stream delivers, for each frame, exactly its content, once, and goes on behind it. */
  lemma {:induction false} AcceptedFrame(env: Environment, input: seq<u8>, frame: Frame, completed: nat)
    returns (part: Part)
    requires Sound(frame) && DecodeBlocks(env, input, frame, completed).verdict == Accepted
    ensures Completes(env, input, frame, part)
    ensures DecodeBlocks(env, input, frame, completed)
        == EndFrame(env, input[part.used..], completed).After(part.content)
    decreases |input|
  {
    hide AcceptBlock, AfterBlock, CheckFrame, EndFrame, Sound, LittleEndian;
    var header := AcceptBlock(env, input[..3], frame).value;
    var body := input[3..];
    var size := header.PayloadSize();
    var after := AfterBlock(env, header, body[..size], frame).value;
    var rest := body[size..];
    var added := after.carried.out[|frame.carried.out|..];
    Continues(frame.carried.out, after.carried.out);
    assert rest == input[3 + size..];
    if !header.last {
      var later := AcceptedFrame(env, rest, after, completed);
      part := Part(added + later.content, 3 + size + later.used);
      Rebase(input, 3 + size, later.used);
      Regroup3(frame.carried.out, added, later.content);
      AfterTwice(EndFrame(env, rest[later.used..], completed), added, later.content);
    } else if frame.header.hasChecksum {
      part := Part(added, 3 + size + 4);
      Checked(env, rest, after, completed);
      Rebase(input, 3 + size, 4);
    } else {
      part := Part(added, 3 + size);
      EndsWithSize(env, header, body[..size], frame);
    }
  }

  lemma Continues(before: seq<u8>, after: seq<u8>)
    requires before <= after
    ensures before + after[|before|..] == after
  {
  }

  lemma Regroup3(a: seq<u8>, b: seq<u8>, c: seq<u8>)
    ensures (a + b) + c == a + (b + c)
  {
  }

  lemma AfterTwice(outcome: Outcome, first: seq<u8>, second: seq<u8>)
    ensures outcome.After(second).After(first) == outcome.After(first + second)
  {
    Regroup3(first, second, outcome.output);
  }

  lemma Rebase(input: seq<u8>, from: nat, used: nat)
    requires from + used <= |input|
    ensures input[from..][used..] == input[from + used..]
    ensures used >= 4 ==> input[from..][used - 4..used] == input[from + used - 4..from + used]
  {
  }

  lemma Checked(env: Environment, input: seq<u8>, frame: Frame, completed: nat)
    requires DecodeChecksum(env, input, frame, completed).verdict == Accepted
    ensures |input| >= 4 && LittleEndian(input[0..4]) == env.xxh64(frame.carried.out) % 0x1_0000_0000
    ensures DecodeChecksum(env, input, frame, completed) == EndFrame(env, input[4..], completed)
    ensures frame.header.contentSize.Some? ==> frame.header.contentSize.value == |frame.carried.out|
  {
    assert input[0..4] == input[..4];
  }

  lemma EndsWithSize(env: Environment, header: BlockHeader, payload: seq<u8>, frame: Frame)
    requires |payload| == header.PayloadSize() && Sound(frame) && header.last && !frame.header.hasChecksum
    requires AfterBlock(env, header, payload, frame).Ok?
    ensures frame.header.contentSize.Some? ==>
              frame.header.contentSize.value == |AfterBlock(env, header, payload, frame).value.carried.out|
  {
    hide BlockOutput;
  }

  // ----- streams

  /** `parts` are the contents of the input's frames, one after another; skippable frames have none. */
  ghost predicate Made(env: Environment, input: seq<u8>, parts: seq<Part>)
    decreases |parts|
  {
    if parts == [] then input == []
    else
      match InspectFrame(input)
      case Ok(Complete(Skippable(_, size), used)) =>
        && parts[0] == Part([], used + size) && used + size <= |input| && Made(env, input[used + size..], parts[1..])
      case Ok(Complete(Zstandard(header), used)) =>
        && used <= parts[0].used <= |input| && StartFrame(header, env).Ok?
        && Completes(env, input[used..], StartFrame(header, env).value, Part(parts[0].content, parts[0].used - used))
        && Made(env, input[parts[0].used..], parts[1..])
      case _ => false
  }

  function Contents(parts: seq<Part>): seq<u8>
  {
    if parts == [] then [] else parts[0].content + Contents(parts[1..])
  }

  /** A stream that is accepted is made of frames, at least one, and what is delivered is their contents in order. */
  lemma {:induction false} AcceptedStream(env: Environment, input: seq<u8>, completed: nat) returns (parts: seq<Part>)
    requires DecodeFrames(env, input, completed).verdict == Accepted
    ensures Made(env, input, parts) && (completed == 0 ==> parts != [])
    ensures DecodeFrames(env, input, completed).output == Contents(parts)
    decreases |input|
  {
    hide StartFrame, DecodeBlocks, Completes, Sound, AfterSkip, EndFrame, InspectFrame;
    InspectShapes(input);
    match InspectFrame(input)
    case Ok(NeedMore(_)) => parts := [];
    case Ok(Complete(Skippable(_, size), used)) =>
      SkipAccepted(env, input[used..], size, completed);
      Rebase(input, used, size);
      var later := AcceptedStream(env, input[used + size..], completed + 1);
      parts := [Part([], used + size)] + later;
      assert parts[1..] == later && [] + Contents(later) == Contents(later);
    case Ok(Complete(Zstandard(header), used)) =>
      var frame := StartFrame(header, env).value;
      var part := AcceptedFrame(env, input[used..], frame, completed);
      CompletesWithin(env, input[used..], frame, part);
      Rebase(input, used, part.used);
      EndAccepted(env, input[used + part.used..], completed);
      var later := AcceptedStream(env, input[used + part.used..], completed + 1);
      parts := [Part(part.content, used + part.used)] + later;
      assert parts[1..] == later;
  }

  lemma SkipAccepted(env: Environment, input: seq<u8>, size: nat, completed: nat)
    requires AfterSkip(env, input, size, completed).verdict == Accepted
    ensures size <= |input| && AfterSkip(env, input, size, completed) == DecodeFrames(env, input[size..], completed + 1)
  {
    hide DecodeFrames;
    assert AfterSkip(env, input, size, completed) == EndFrame(env, input[size..], completed);
  }

  lemma EndAccepted(env: Environment, input: seq<u8>, completed: nat)
    requires EndFrame(env, input, completed).verdict == Accepted
    ensures EndFrame(env, input, completed) == DecodeFrames(env, input, completed + 1)
  {
    hide DecodeFrames;
  }

  lemma InspectShapes(input: seq<u8>)
    ensures InspectFrame(input).Ok? && InspectFrame(input).value.Complete?
        ==> 6 <= InspectFrame(input).value.size <= |input|
  {
  }

  lemma CompletesWithin(env: Environment, input: seq<u8>, frame: Frame, part: Part)
    requires Completes(env, input, frame, part)
    ensures part.used <= |input|
  {
  }
}
