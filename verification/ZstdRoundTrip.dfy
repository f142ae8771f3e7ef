/** Frames, written and decoded (zstd-zero/src/lib.rs lines 413-618): whatever
    blocks a frame is written from, the decoder's specification accepts it and
    delivers exactly what the blocks stand for. */
module ZstdRoundTrip {
  import opened Numbers
  import opened Results
  import opened ZstdBits
  import opened ZstdHistory
  import opened ZstdBlock
  import opened ZstdStream
  import opened ZstdHeaders
  import opened ZstdEncoding

  // ----- blocks in a frame

  /** A block that can be written here, and respects the frame's limit and the decoder's buffer. */
  ghost predicate Fits(env: Environment, frame: Frame, w: Written)
    ensures Fits(env, frame, w) ==> ValidParts(w, frame.carried)
  {
    && ValidParts(w, frame.carried)
    && HeaderFor(w, frame.carried, false).size <= frame.Bounded(env).Limit() && |Body(w, frame.carried)| <= env.block
  }

  /** All blocks fit, can be executed, and regenerate no more than the limit each. */
  ghost predicate AllFit(env: Environment, frame: Frame, ws: seq<Written>)
    decreases |ws|
  {
    ws != [] ==>
      && Fits(env, frame, ws[0])
      && match Effect(ws[0], frame.carried, frame.Bounded(env))
         case Err(_) => false
         case Ok(after) =>
           |after.out| - |frame.carried.out| <= frame.Bounded(env).Limit()
               && AllFit(env, frame.(carried := after), ws[1..])
  }

  /** The frame behind its blocks. */
  ghost function Played(env: Environment, frame: Frame, ws: seq<Written>): (after: Frame)
    requires AllFit(env, frame, ws)
    ensures after.header == frame.header
    decreases |ws|
  {
    if ws == [] then frame
    else Played(env, frame.(carried := Effect(ws[0], frame.carried, frame.Bounded(env)).value), ws[1..])
  }

  ghost function BlockBytes(w: Written, before: Carried, last: bool): seq<u8>
    requires ValidParts(w, before)
  {
    WriteBlockHeader(HeaderFor(w, before, last)) + Body(w, before)
  }

  ghost function BlocksBytes(env: Environment, frame: Frame, ws: seq<Written>): seq<u8>
    requires AllFit(env, frame, ws)
    decreases |ws|
  {
    if ws == [] then []
    else
      BlockBytes(ws[0], frame.carried, |ws| == 1)
      + BlocksBytes(env, frame.(carried := Effect(ws[0], frame.carried, frame.Bounded(env)).value), ws[1..])
  }

  /** The checksum, if the frame has one. */
  ghost function Trailer(env: Environment, frame: Frame): seq<u8>
  {
    if frame.header.hasChecksum then LittleBytes(env.xxh64(frame.carried.out) % 0x1_0000_0000, 4) else []
  }

  ghost predicate SizeIsRight(frame: Frame)
  {
    frame.header.contentSize.Some? ==> frame.header.contentSize.value == |frame.carried.out|
  }

  /** One block: its header is accepted, and its body has the effect that was meant. */
  lemma BlockDecodes(env: Environment, frame: Frame, w: Written, last: bool, rest: seq<u8>, completed: nat)
    requires Sound(frame) && Fits(env, frame, w) && Effect(w, frame.carried, frame.Bounded(env)).Ok?
    requires
      var after := Effect(w, frame.carried, frame.Bounded(env)).value;
      |after.out| - |frame.carried.out| <= frame.Bounded(env).Limit()
    requires
      var next := frame.(carried := Effect(w, frame.carried, frame.Bounded(env)).value);
      last && !frame.header.hasChecksum ==> SizeIsRight(next)
    ensures
      var next := frame.(carried := Effect(w, frame.carried, frame.Bounded(env)).value);
      && Sound(next) && frame.carried.out <= next.carried.out
      && DecodeBlocks(env, BlockBytes(w, frame.carried, last) + rest, frame, completed) ==
           (if !last then DecodeBlocks(env, rest, next, completed)
            else if frame.header.hasChecksum then DecodeChecksum(env, rest, next, completed)
            else EndFrame(env, rest, completed)).After(next.carried.out[|frame.carried.out|..])
  {
    hide Sound, AcceptBlock, AfterBlock, Effect, DecodeChecksum, EndFrame, ValidParts, Body, WriteBlockHeader;
    var header, body, input :=
        HeaderFor(w, frame.carried, last), Body(w, frame.carried), BlockBytes(w, frame.carried, last) + rest;
    HeaderAccepted(env, frame, w, last);
    EffectDone(env, frame, w, last);
    assert input[..3] == WriteBlockHeader(header);
    assert input[3..] == body + rest;
    assert (body + rest)[..|body|] == body && (body + rest)[|body|..] == rest;
  }

  lemma HeaderAccepted(env: Environment, frame: Frame, w: Written, last: bool)
    requires Fits(env, frame, w)
    ensures HeaderFor(w, frame.carried, last).last == last
        && HeaderFor(w, frame.carried, last).PayloadSize() == |Body(w, frame.carried)|
    ensures AcceptBlock(env, WriteBlockHeader(HeaderFor(w, frame.carried, last)), frame)
        == Ok(HeaderFor(w, frame.carried, last))
  {
    hide WriteBlockHeader, ParseBlockHeader, ValidParts;
    BlockHeaderRoundTrip(HeaderFor(w, frame.carried, last), WriteBlockHeader(HeaderFor(w, frame.carried, last)),
        frame.Bounded(env).Limit());
  }

  lemma EffectDone(env: Environment, frame: Frame, w: Written, last: bool)
    requires Sound(frame) && Fits(env, frame, w) && Effect(w, frame.carried, frame.Bounded(env)).Ok?
    requires
      var after := Effect(w, frame.carried, frame.Bounded(env)).value;
      |after.out| - |frame.carried.out| <= frame.Bounded(env).Limit()
    requires
      var next := frame.(carried := Effect(w, frame.carried, frame.Bounded(env)).value);
      last && !frame.header.hasChecksum ==> SizeIsRight(next)
    ensures |Body(w, frame.carried)| == HeaderFor(w, frame.carried, last).PayloadSize()
    ensures
      var next := frame.(carried := Effect(w, frame.carried, frame.Bounded(env)).value);
      AfterBlock(env, HeaderFor(w, frame.carried, last), Body(w, frame.carried), frame) == Ok(next)
  {
    hide BlockEffect, Effect, ValidParts, Body;
    BlockReads(w, last, frame.carried, frame.Bounded(env));
    BlockAppends(HeaderFor(w, frame.carried, last), Body(w, frame.carried), frame.carried, frame.Bounded(env));
  }

  /** Blocks, one after another, and the end of the frame. */
  lemma {:induction false} BlocksDecode(env: Environment, frame: Frame, ws: seq<Written>, tail: seq<u8>, completed: nat)
    requires Sound(frame) && ws != [] && AllFit(env, frame, ws) && SizeIsRight(Played(env, frame, ws))
    ensures frame.carried.out <= Played(env, frame, ws).carried.out
    ensures DecodeBlocks(env, BlocksBytes(env, frame, ws) + (Trailer(env, Played(env, frame, ws)) + tail), frame,
        completed)
            == EndFrame(env, tail, completed).After(Played(env, frame, ws).carried.out[|frame.carried.out|..])
    decreases |ws|
  {
    hide Fits, Effect, DecodeBlocks, EndFrame, DecodeChecksum, BlockBytes, Sound, Trailer;
    var w, last := ws[0], |ws| == 1;
    var next := frame.(carried := Effect(w, frame.carried, frame.Bounded(env)).value);
    var end := Played(env, frame, ws);
    var behind := BlocksBytes(env, next, ws[1..]) + (Trailer(env, end) + tail);
    assert BlocksBytes(env, frame, ws) + (Trailer(env, end) + tail) == BlockBytes(w, frame.carried, last) + behind;
    if last {
      assert ws[1..] == [] && behind == Trailer(env, end) + tail;
      BlockDecodes(env, frame, w, last, behind, completed);
      TrailerDecodes(env, end, tail, completed);
    } else {
      BlockDecodes(env, frame, w, last, behind, completed);
      BlocksDecode(env, next, ws[1..], tail, completed);
      Extended(frame.carried.out, next.carried.out, end.carried.out, EndFrame(env, tail, completed));
    }
  }

  lemma TrailerDecodes(env: Environment, frame: Frame, tail: seq<u8>, completed: nat)
    requires SizeIsRight(frame)
    ensures frame.header.hasChecksum ==>
      DecodeChecksum(env, Trailer(env, frame) + tail, frame, completed) == EndFrame(env, tail, completed)
    ensures !frame.header.hasChecksum ==> Trailer(env, frame) + tail == tail
  {
    hide EndFrame, LittleEndian, LittleBytes, Pow2;
    if frame.header.hasChecksum {
      var sum := env.xxh64(frame.carried.out) % 0x1_0000_0000;
      Pow2Values();
      LittleBytesRead(sum, 4);
      assert (Trailer(env, frame) + tail)[..4] == LittleBytes(sum, 4) && (Trailer(env, frame) + tail)[4..] == tail;
    }
  }

  lemma Extended(a: seq<u8>, b: seq<u8>, c: seq<u8>, outcome: Outcome)
    requires a <= b <= c
    ensures a <= c && outcome.After(c[|b|..]).After(b[|a|..]) == outcome.After(c[|a|..])
  {
    assert b[|a|..] + c[|b|..] == c[|a|..];
    assert b[|a|..] + (c[|b|..] + outcome.output) == c[|a|..] + outcome.output;
  }

  /** The tables that a block can take over from the one before are always there to spell with. */
  lemma {:induction false} PlayedIsSteady(env: Environment, frame: Frame, ws: seq<Written>)
    requires Steady(frame.carried.tables) && AllFit(env, frame, ws)
    ensures Steady(Played(env, frame, ws).carried.tables)
    decreases |ws|
  {
    hide Fits, Effect, Steady;
    if ws != [] {
      EffectIsSteady(ws[0], frame.carried, frame.Bounded(env));
      PlayedIsSteady(env, frame.(carried := Effect(ws[0], frame.carried, frame.Bounded(env)).value), ws[1..]);
    }
  }

  // ----- frames

  /** A frame that the decoder has room for: its header, and the blocks it is written from. */
  ghost predicate Acceptable(env: Environment, f: Form, ws: seq<Written>)
  {
    && ValidForm(f) && ws != []
    && match StartFrame(Meant(f), env)
       case Err(_) => false
       case Ok(frame) => AllFit(env, frame, ws) && SizeIsRight(Played(env, frame, ws))
  }

  ghost function Content(env: Environment, f: Form, ws: seq<Written>): seq<u8>
    requires Acceptable(env, f, ws)
  {
    Played(env, StartFrame(Meant(f), env).value, ws).carried.out
  }

  ghost function FrameBytes(env: Environment, f: Form, ws: seq<Written>): seq<u8>
    requires Acceptable(env, f, ws)
  {
    var frame := StartFrame(Meant(f), env).value;
    WriteHeader(f) + (BlocksBytes(env, frame, ws) + Trailer(env, Played(env, frame, ws)))
  }

  /** A frame decodes to what its blocks stand for, and decoding goes on behind it. */
  lemma FrameRoundTrip(env: Environment, f: Form, ws: seq<Written>, tail: seq<u8>, completed: nat)
    requires Acceptable(env, f, ws)
    ensures DecodeFrames(env, FrameBytes(env, f, ws) + tail, completed)
        == EndFrame(env, tail, completed).After(Content(env, f, ws))
  {
    hide DecodeBlocks, EndFrame, BlocksBytes, Trailer, Played, AllFit, WriteHeader, Meant, InspectFrame, Sound;
    var frame := StartFrame(Meant(f), env).value;
    var blocks, trailer := BlocksBytes(env, frame, ws), Trailer(env, Played(env, frame, ws));
    HeaderReadsBack(f, blocks + trailer + tail);
    BlocksDecode(env, frame, ws, tail, completed);
    Regroup(WriteHeader(f), blocks, trailer, tail);
    assert frame.carried.out == [];
    assert Content(env, f, ws)[0..] == Content(env, f, ws);
  }

  lemma Regroup(header: seq<u8>, blocks: seq<u8>, trailer: seq<u8>, tail: seq<u8>)
    ensures (header + (blocks + trailer)) + tail == header + (blocks + trailer + tail)
    ensures blocks + trailer + tail == blocks + (trailer + tail)
    ensures (header + (blocks + trailer + tail))[|header|..] == blocks + trailer + tail
  {
  }

  // ----- every content

  /** Stored blocks of at most 1024 bytes. */
  function Chunks(data: seq<u8>): (ws: seq<Written>)
    ensures ws != []
  {
    if |data| <= 1024 then [Stored(data)] else [Stored(data[..1024])] + Chunks(data[1024..])
  }

  lemma {:induction false} ChunksPlay(env: Environment, frame: Frame, data: seq<u8>)
    requires frame.header.windowSize == 1024 <= env.history && env.block >= 1024
        && |frame.carried.out| + |data| <= U64_MAX
    ensures AllFit(env, frame, Chunks(data))
    ensures Played(env, frame, Chunks(data)).carried.out == frame.carried.out + data
    decreases |data|
  {
    var front := if |data| <= 1024 then data else data[..1024];
    var next := frame.(carried := frame.carried.(out := frame.carried.out + front));
    assert frame.carried.out + [] == frame.carried.out;
    assert Effect(Stored(front), frame.carried, frame.Bounded(env)) == Ok(next.carried);
    if |data| > 1024 {
      ChunksPlay(env, next, data[1024..]);
      assert data == front + data[1024..];
      assert frame.carried.out + data == next.carried.out + data[1024..];
      assert Chunks(data)[1..] == Chunks(data[1024..]);
    }
  }

  /** There is no content that cannot be delivered: every one has a stream that decodes to it, checksum included. */
  lemma EveryContentHasAStream(env: Environment, data: seq<u8>) returns (stream: seq<u8>)
    requires env.history >= 1024 && env.block >= 1024 && |data| <= U64_MAX
    ensures DecodeFrames(env, stream, 0) == Outcome(data, Accepted)
  {
    hide DecodeFrames, AllFit, Played, FrameBytes, Chunks;
    var f := Form(false, 0, 0, 0, 0, 0, true, false);
    DescriptorBits(f);
    Pow2Values();
    var frame := StartFrame(Meant(f), env).value;
    ChunksPlay(env, frame, data);
    stream := FrameBytes(env, f, Chunks(data));
    FrameRoundTrip(env, f, Chunks(data), [], 0);
    assert stream + [] == stream && [] + data == data && data + [] == data;
    EndOfStream(env);
  }

  lemma EndOfStream(env: Environment)
    ensures EndFrame(env, [], 0) == Outcome([], Accepted)
  {
  }
}
