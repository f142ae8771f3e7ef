/** The wrapping history buffer (zstd-zero/src/lib.rs lines 784-830), refined to
    an output string that never forgets. */
module ZstdHistory {
  import opened Numbers
  import opened Results
  import opened ZstdErrors

  // ----- what is written, without a ring

  /** Appending byte by byte to a frame's output; `capacity` is the length of the history buffer. */
  function Append(out: seq<u8>, bytes: seq<u8>, capacity: nat): (r: Result<seq<u8>, DecodeError>)
  {
    if bytes == [] then Ok(out)
    else if capacity == 0 then Err(HistoryTooSmall(1, 0))
    else if |out| + |bytes| > U64_MAX then Err(ArithmeticOverflow)
    else Ok(out + bytes)
  }

  /** The `length` bytes that a match repeats: the last `offset` bytes, over and over. */
  function Repeated(out: seq<u8>, offset: nat, length: nat): (bytes: seq<u8>)
    requires 0 < offset <= |out|
    ensures |bytes| == length
  {
    seq(length, i requires 0 <= i < length => out[|out| - offset + i % offset])
  }

  function CopyMatch(out: seq<u8>, offset: nat, length: nat, window: nat, capacity: nat)
    : (r: Result<seq<u8>, DecodeError>)
  {
    if offset == 0 || offset > Min(|out|, window) then Err(InvalidOffset)
    else Append(out, Repeated(out, offset, length), capacity)
  }

  /** LZ77 as RFC 8878 section 3.1.1.4 tells it: one byte at a time, each `offset` back from the end. */
  function ByteByByte(out: seq<u8>, offset: nat, length: nat): seq<u8>
    requires 0 < offset <= |out|
    decreases length
  {
    if length == 0 then out
    else
      var before := ByteByByte(out, offset, length - 1);
      if offset <= |before| then before + [before[|before| - offset]] else before
  }

  lemma PeriodShift(k: nat, offset: nat)
    requires 0 < offset <= k
    ensures (k - offset) % offset == k % offset
  {
    DivMod(k, offset);
    var q, r := k / offset, k % offset;
    MulDistributive(offset, q - 1, 1);
    assert q >= 1;
    DivModUnique(k - offset, offset, q - 1, r);
  }

  /** The byte that a match copies next, even where it overlaps its own output. */
  lemma NextRepeated(out: seq<u8>, offset: nat, k: nat)
    requires 0 < offset <= |out|
    ensures
      var all := out + Repeated(out, offset, k);
      && all[|all| - offset] == Repeated(out, offset, k + 1)[k]
      && Repeated(out, offset, k + 1) == Repeated(out, offset, k) + [all[|all| - offset]]
  {
    if k < offset {
      DivModUnique(k, offset, 0, k);
    } else {
      PeriodShift(k, offset);
    }
  }

  /** Overlapping copies are periodic. */
  lemma {:induction false} ByteByByteIsPeriodic(out: seq<u8>, offset: nat, length: nat)
    requires 0 < offset <= |out|
    ensures ByteByByte(out, offset, length) == out + Repeated(out, offset, length)
  {
    hide Repeated;
    if length == 0 {
      assert out + Repeated(out, offset, 0) == out;
    } else {
      ByteByByteIsPeriodic(out, offset, length - 1);
      NextRepeated(out, offset, length - 1);
    }
  }

  // ----- the ring

  /** The place `back` writes ago; the last byte written is 1 back. */
  function Behind(position: nat, back: nat, capacity: nat): (place: nat)
    requires position < capacity && 0 < back <= capacity
    ensures place < capacity
  {
    if back <= position then position - back else position + capacity - back
  }

  lemma BehindIsModular(position: nat, back: nat, capacity: nat)
    requires position < capacity && 0 < back <= capacity
    ensures (position + capacity - back) % capacity == Behind(position, back, capacity)
  {
    if back <= position {
      DivModUnique(position + capacity - back, capacity, 1, position - back);
    } else {
      DivModUnique(position + capacity - back, capacity, 0, position + capacity - back);
    }
  }

  /** The ring ends with the last bytes of `out`. */
  ghost predicate Remembers(buffer: seq<u8>, position: nat, out: seq<u8>)
  {
    && (position < |buffer| || position == |buffer| == 0)
    && forall back :: 0 < back <= |out| && back <= |buffer|
        ==> buffer[Behind(position, back, |buffer|)] == out[|out| - back]
  }

  /** After `count` writes from `origin`, the ring is at `position`. */
  ghost predicate Placed(position: nat, origin: nat, count: nat, capacity: nat)
  {
    capacity > 0 ==> position == (origin + count) % capacity
  }

  lemma PlacedNext(position: nat, origin: nat, count: nat, capacity: nat)
    requires position < capacity && Placed(position, origin, count, capacity)
    ensures Placed(if position + 1 == capacity then 0 else position + 1, origin, count + 1, capacity)
  {
    DivMod(origin + count, capacity);
    var q := (origin + count) / capacity;
    if position + 1 == capacity {
      MulDistributive(capacity, q, 1);
      DivModUnique(origin + count + 1, capacity, q + 1, 0);
    } else {
      DivModUnique(origin + count + 1, capacity, q, position + 1);
    }
  }

  /** Going back over the last `back` writes leads to where they began. */
  lemma BehindIsWhereItBegan(before: nat, after: nat, origin: nat, count: nat, back: nat, capacity: nat)
    requires before < capacity && after < capacity && 0 < back <= capacity
    requires Placed(before, origin, count, capacity) && Placed(after, origin, count + back, capacity)
    ensures Behind(after, back, capacity) == before
  {
    DivMod(origin + count, capacity);
    var q := (origin + count) / capacity;
    if before + back < capacity {
      DivModUnique(origin + count + back, capacity, q, before + back);
    } else if before + back < 2 * capacity {
      MulDistributive(capacity, q, 1);
      DivModUnique(origin + count + back, capacity, q + 1, before + back - capacity);
    }
  }

  class History {
    const buffer: array<u8>
    var position: nat
    var frameOutput: u64
    ghost var out: seq<u8>
    ghost var origin: nat

    /** The position is a place in the ring; this survives errors. */
    ghost predicate Shaped()
      reads this
    {
      position < buffer.Length || position == buffer.Length == 0
    }

    ghost predicate Valid()
      reads this, buffer
    {
      && Remembers(buffer[..], position, out) && frameOutput == |out|
      && Placed(position, origin, |out|, buffer.Length)
    }

    constructor (buffer: array<u8>)
      ensures Valid() && Shaped() && out == [] && this.buffer == buffer
    {
      this.buffer := buffer;
      this.position := 0;
      this.frameOutput := 0;
      this.out := [];
      this.origin := 0;
    }

    /** A new frame cannot refer to what the ring still holds. */
    method StartFrame()
      requires Shaped()
      modifies this
      ensures Valid() && Shaped() && out == [] && position == old(position)
    {
      frameOutput := 0;
      out := [];
      origin := position;
    }

    method WriteByte(byte: u8) returns (r: Result<(), DecodeError>)
      requires Valid() && Shaped()
      modifies this, buffer
      ensures Shaped()
      ensures
        match Append(old(out), [byte], buffer.Length)
        case Err(e) => r == Err(e)
        case Ok(all) => r == Ok(()) && Valid() && out == all && origin == old(origin)
    {
      if buffer.Length == 0 {
        return Err(HistoryTooSmall(1, 0));
      }
      ghost var before, place := buffer[..], position;
      buffer[position] := byte;
      position := position + 1;
      if position == buffer.Length {
        position := 0;
      }
      if frameOutput == U64_MAX {
        return Err(ArithmeticOverflow);
      }
      frameOutput := frameOutput + 1;
      RingAdvances(before, place, old(out), byte);
      PlacedNext(place, origin, |out|, buffer.Length);
      out := out + [byte];
      r := Ok(());
    }

    /** Writes bytes until one fails. */
    method WriteAll(bytes: seq<u8>) returns (r: Result<(), DecodeError>)
      requires Valid() && Shaped()
      modifies this, buffer
      ensures Shaped()
      ensures
        match Append(old(out), bytes, buffer.Length)
        case Err(e) => r == Err(e)
        case Ok(all) => r == Ok(()) && Valid() && out == all && origin == old(origin)
    {
      hide Remembers, Placed;
      ghost var start := out;
      assert bytes[..0] == [];
      for i := 0 to |bytes|
        invariant Valid() && Shaped() && origin == old(origin)
        invariant Append(start, bytes[..i], buffer.Length) == Ok(out)
      {
        AppendNext(start, bytes, i, buffer.Length);
        var _ :- WriteByte(bytes[i]);
      }
      assert bytes[..|bytes|] == bytes;
      r := Ok(());
    }

    /** Writes the same byte `count` times. */
    method WriteRun(byte: u8, count: nat) returns (r: Result<(), DecodeError>)
      requires Valid() && Shaped()
      modifies this, buffer
      ensures Shaped()
      ensures
        match Append(old(out), Run(byte, count), buffer.Length)
        case Err(e) => r == Err(e)
        case Ok(all) => r == Ok(()) && Valid() && out == all && origin == old(origin)
    {
      hide Remembers, Placed;
      ghost var start, bytes := out, Run(byte, count);
      assert bytes[..0] == [];
      for i := 0 to count
        invariant Valid() && Shaped() && origin == old(origin)
        invariant Append(start, bytes[..i], buffer.Length) == Ok(out)
      {
        AppendNext(start, bytes, i, buffer.Length);
        var _ :- WriteByte(byte);
      }
      assert bytes[..count] == bytes;
      r := Ok(());
    }

    /** Copies a match through the ring. */
    method CopyFrom(offset: nat, length: nat, window: nat) returns (r: Result<(), DecodeError>)
      requires Valid() && Shaped() && window <= buffer.Length
      modifies this, buffer
      ensures Shaped()
      ensures
        match CopyMatch(old(out), offset, length, window, buffer.Length)
        case Err(e) => r == Err(e)
        case Ok(all) => r == Ok(()) && Valid() && out == all && origin == old(origin)
    {
      if offset == 0 || offset > Min(frameOutput, window) {
        return Err(InvalidOffset);
      }
      ghost var start := out;
      ghost var bytes := Repeated(start, offset, length);
      assert bytes[..0] == [];
      for k := 0 to length
        invariant Valid() && Shaped() && origin == old(origin)
        invariant Append(start, bytes[..k], buffer.Length) == Ok(out)
      {
        BehindIsModular(position, offset, buffer.Length);
        var source := (position + buffer.Length - offset) % buffer.Length;
        NextOfMatch(start, offset, length, k, out, buffer.Length);
        AppendNext(start, bytes, k, buffer.Length);
        var _ :- WriteByte(buffer[source]);
      }
      assert bytes[..length] == bytes;
      r := Ok(());
    }
  }

  function Run(byte: u8, count: nat): (bytes: seq<u8>)
    ensures |bytes| == count
  {
    seq(count, _ => byte)
  }

  lemma RingAdvances(buffer: seq<u8>, position: nat, out: seq<u8>, byte: u8)
    requires Remembers(buffer, position, out) && |buffer| > 0
    ensures Remembers(buffer[position := byte], if position + 1 == |buffer| then 0 else position + 1, out + [byte])
  {
    var after := buffer[position := byte];
    var next := if position + 1 == |buffer| then 0 else position + 1;
    forall back | 0 < back <= |out| + 1 && back <= |buffer|
      ensures after[Behind(next, back, |buffer|)] == (out + [byte])[|out| + 1 - back]
    {
      if back > 1 {
        assert Behind(next, back, |buffer|) == Behind(position, back - 1, |buffer|);
        assert buffer[Behind(position, back - 1, |buffer|)] == out[|out| - (back - 1)];
      }
    }
  }

  lemma AppendNext(out: seq<u8>, bytes: seq<u8>, i: nat, capacity: nat)
    requires i < |bytes| && Append(out, bytes[..i], capacity).Ok?
    ensures
      var next := Append(Append(out, bytes[..i], capacity).value, [bytes[i]], capacity);
      && next == Append(out, bytes[..i + 1], capacity)
      && (next.Err? ==> Append(out, bytes, capacity) == next)
  {
    assert bytes[..i + 1] == bytes[..i] + [bytes[i]];
    assert out + bytes[..i] + [bytes[i]] == out + bytes[..i + 1];
    assert bytes[..0] == [] && out + [] == out;
  }

  lemma NextOfMatch(start: seq<u8>, offset: nat, length: nat, k: nat, out: seq<u8>, capacity: nat)
    requires 0 < offset <= |start| && k < length
    requires Append(start, Repeated(start, offset, length)[..k], capacity) == Ok(out)
    ensures offset <= |out| && out[|out| - offset] == Repeated(start, offset, length)[k]
  {
    assert Repeated(start, offset, length)[..k] == Repeated(start, offset, k);
    NextRepeated(start, offset, k);
    assert out == start + Repeated(start, offset, k);
  }
}
