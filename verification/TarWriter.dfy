/** The deterministic ustar writer (src/tar.rs lines 10-162). */
module TarWriter {
  import opened Numbers
  import opened Results
  import opened TarHeader
  import opened TarPath

  datatype WriteState = Ready | File(remaining: nat, size: u64) | Finished

  datatype WriteError = InvalidState | InvalidPath | ValueTooLarge | TooMuchData | SizeMismatch(remaining: nat)

  /** A file of an archive. */
  datatype Member = Member(path: seq<u8>, mode: u32, content: seq<u8>)

  predicate AcceptablePath(path: seq<u8>)
  {
    0 < |path| <= 100 && path[0] != SLASH && 0 !in path && DOT_DOT !in Split(path)
  }

  /** The ustar header of a regular file, field by field; the checksum is a number like the others. */
  function Fields(path: seq<u8>, size: nat, mode: nat, checksum: seq<u8>): (header: seq<u8>)
    requires |path| <= 100 && |checksum| == 8
    ensures |header| == BLOCK_SIZE
  {
    Front(path, size, mode) + checksum + Back()
  }

  /** Name, mode, owner, group, size and time. */
  function Front(path: seq<u8>, size: nat, mode: nat): (front: seq<u8>)
    requires |path| <= 100
    ensures |front| == 148
  {
    (path + Zeros(100 - |path|)) + (OctalDigits(mode, 7) + [0]) + (OctalDigits(0, 7) + [0]) + (OctalDigits(0, 7) + [0])
      + (OctalDigits(size, 11) + [0]) + (OctalDigits(0, 11) + [0])
  }

  /** Type, link name, magic and version, and everything that is zero behind them. */
  function Back(): (back: seq<u8>)
    ensures |back| == 356
  {
    [ZERO] + Zeros(100) + [0x75, 0x73, 0x74, 0x61, 0x72, 0] + [ZERO, ZERO] + Zeros(247)
  }

  function Spaces(n: nat): (s: seq<u8>)
    ensures |s| == n
  {
    seq(n, _ => SPACE)
  }

  /** The header that is written: its checksum field holds the sum over the header with that field blank. */
  function HeaderOf(path: seq<u8>, size: nat, mode: nat): (header: seq<u8>)
    requires |path| <= 100
    ensures |header| == BLOCK_SIZE
  {
    var sum := Sum(Fields(path, size, mode, Spaces(8)));
    Fields(path, size, mode, OctalDigits(sum, 6) + [0, SPACE])
  }

  function ImageOf(member: Member): seq<u8>
    requires |member.path| <= 100
  {
    HeaderOf(member.path, |member.content|, member.mode) + member.content + Zeros(PaddingFor(|member.content|))
  }

  predicate Writable(member: Member)
  {
    AcceptablePath(member.path) && member.mode < Pow8(7) && |member.content| < Pow8(11)
  }

  predicate AllWritable(members: seq<Member>)
  {
    forall k :: 0 <= k < |members| ==> Writable(members[k])
  }

  function Image(members: seq<Member>): seq<u8>
    requires AllWritable(members)
  {
    if members == [] then []
    else
      assert Writable(members[|members| - 1]);
      assert AllWritable(members[..|members| - 1]);
      Image(members[..|members| - 1]) + ImageOf(members[|members| - 1])
  }

  /** The blocks of members: a header for each, and as few behind it as hold the content. */
  function Blocks(members: seq<Member>): nat
  {
    if members == [] then 0
    else
      var size := |members[|members| - 1].content|;
      Blocks(members[..|members| - 1]) + 1 + (size + BLOCK_SIZE - 1) / BLOCK_SIZE
  }

  /** Written members fill whole blocks, as few as their contents need. */
  lemma {:induction false} ImageIsBlocks(members: seq<Member>)
    requires AllWritable(members)
    ensures |Image(members)| == BLOCK_SIZE * Blocks(members)
  {
    hide HeaderOf, AcceptablePath, Pow8;
    if members == [] {
    } else {
      var member := members[|members| - 1];
      assert Writable(member);
      AcceptableFits(member.path);
      ImageIsBlocks(members[..|members| - 1]);
      PaddingFills(|member.content|);
    }
  }

  // ----- the writer

  class TarWriter {
    var state: WriteState
    /** Everything written so far, and what it means. */
    ghost var emitted: seq<u8>
    ghost var members: seq<Member>
    ghost var path: seq<u8>
    ghost var mode: u32
    ghost var content: seq<u8>

    ghost predicate Valid()
      reads this
    {
      && AllWritable(members)
      && match state
         case Ready => emitted == Image(members)
         case Finished => emitted == Image(members) + Zeros(2 * BLOCK_SIZE)
         case File(remaining, size) =>
           && AcceptablePath(path) && mode < Pow8(7) && size < Pow8(11) && |content| + remaining == size
           && emitted == Image(members) + HeaderOf(path, size, mode) + content
    }

    constructor ()
      ensures Valid() && state == Ready && members == [] && emitted == []
    {
      state := Ready;
      emitted, members, path, mode, content := [], [], [], 0, [];
    }

    /** Emits the header of a file. A rejected file leaves the writer as it was. */
    method BeginFile(path: seq<u8>, size: u64, mode: u32) returns (r: Result<seq<u8>, WriteError>)
      requires Valid()
      modifies this
      ensures Valid() && members == old(members)
      ensures r ==
        if old(state) != Ready then Err(InvalidState)
        else if !AcceptablePath(path) then Err(InvalidPath)
        else if mode >= Pow8(7) || size >= Pow8(11) then Err(ValueTooLarge)
        else Ok(HeaderOf(path, size, mode))
      ensures r.Err? ==> state == old(state) && emitted == old(emitted)
      ensures r.Ok? ==> state == File(size, size) && emitted == old(emitted) + r.value && content == []
      ensures r.Ok? ==> this.path == path && this.mode == mode
    {
      hide HeaderOf, Image, AcceptablePath;
      if state != Ready {
        return Err(InvalidState);
      }
      if !AcceptablePath(path) {
        return Err(InvalidPath);
      }
      AcceptableFits(path);
      var built := BuildHeader(path, size, mode);
      if built.Err? {
        return Err(ValueTooLarge);
      }
      state := File(size, size);
      this.path, this.mode, content := path, mode, [];
      emitted := emitted + built.value;
      assert emitted + [] == emitted;
      r := Ok(built.value);
    }

    method WriteFileData(bytes: seq<u8>) returns (r: Result<seq<u8>, WriteError>)
      requires Valid()
      modifies this
      ensures Valid() && members == old(members) && path == old(path) && mode == old(mode)
      ensures r ==
        match old(state)
        case File(remaining, _) => if |bytes| > remaining then Err(TooMuchData) else Ok(bytes)
        case _ => Err(InvalidState)
      ensures r.Err? ==> state == old(state) && emitted == old(emitted)
      ensures r.Ok? ==>
        && state == File(old(state).remaining - |bytes|, old(state).size)
        && emitted == old(emitted) + bytes && content == old(content) + bytes
    {
      hide HeaderOf, Image, AcceptablePath, Pow8;
      match state {
        case File(remaining, size) =>
          if |bytes| > remaining {
            return Err(TooMuchData);
          }
          state := File(remaining - |bytes|, size);
          AcceptableFits(path);
          assert Image(members) + HeaderOf(path, size, mode) + (content + bytes)
              == (Image(members) + HeaderOf(path, size, mode) + content) + bytes;
          emitted, content := emitted + bytes, content + bytes;
          r := Ok(bytes);
        case _ =>
          r := Err(InvalidState);
      }
    }

    /** Pads the file to whole blocks: it is now a member of the archive. */
    method EndFile() returns (r: Result<seq<u8>, WriteError>)
      requires Valid()
      modifies this
      ensures Valid()
      ensures r ==
        match old(state)
        case File(remaining, size) => if remaining != 0 then Err(SizeMismatch(remaining))
            else Ok(Zeros(PaddingFor(size)))
        case _ => Err(InvalidState)
      ensures r.Err? ==> state == old(state) && emitted == old(emitted) && members == old(members)
      ensures r.Ok? ==>
        && state == Ready && emitted == old(emitted) + r.value
        && members == old(members) + [Member(old(path), old(mode), old(content))]
    {
      hide HeaderOf, AcceptablePath, Pow8;
      match state {
        case File(remaining, size) =>
          if remaining != 0 {
            return Err(SizeMismatch(remaining));
          }
          ghost var member := Member(path, mode, content);
          AppendMember(members, member);
          assert emitted + Zeros(PaddingFor(size))
              == Image(members) + (HeaderOf(path, size, mode) + content + Zeros(PaddingFor(size)));
          state := Ready;
          emitted, members := emitted + Zeros(PaddingFor(size)), members + [member];
          r := Ok(Zeros(PaddingFor(size)));
        case _ =>
          r := Err(InvalidState);
      }
    }

    method Finish() returns (r: Result<seq<u8>, WriteError>)
      requires Valid()
      modifies this
      ensures Valid() && members == old(members)
      ensures r == if old(state) != Ready then Err(InvalidState) else Ok(Zeros(2 * BLOCK_SIZE))
      ensures r.Err? ==> state == old(state) && emitted == old(emitted)
      ensures r.Ok? ==> state == Finished && emitted == Image(members) + Zeros(2 * BLOCK_SIZE)
      ensures r.Ok? ==> |emitted| == BLOCK_SIZE * (Blocks(members) + 2)
    {
      hide HeaderOf, Image, AcceptablePath, Pow8;
      ImageIsBlocks(members);
      if state != Ready {
        return Err(InvalidState);
      }
      state := Finished;
      emitted := emitted + Zeros(2 * BLOCK_SIZE);
      r := Ok(Zeros(2 * BLOCK_SIZE));
    }
  }

  lemma AcceptableFits(path: seq<u8>)
    requires AcceptablePath(path)
    ensures 0 < |path| <= 100
  {
  }

  lemma AppendMember(members: seq<Member>, member: Member)
    requires AllWritable(members) && Writable(member)
    ensures AllWritable(members + [member]) && |member.path| <= 100
    ensures Image(members + [member]) == Image(members) + ImageOf(member)
  {
    assert (members + [member])[..|members|] == members;
  }

  // ----- the header, in place

  /** The fields of a header whose checksum is still blank, as slices. */
  ghost predicate Blank(header: seq<u8>, path: seq<u8>, size: nat, mode: nat)
    requires |path| <= 100
  {
    && |header| == BLOCK_SIZE
    && header[0..100] == path + Zeros(100 - |path|)
    && header[100..108] == OctalDigits(mode, 7) + [0]
    && header[108..116] == OctalDigits(0, 7) + [0]
    && header[116..124] == OctalDigits(0, 7) + [0]
    && header[124..136] == OctalDigits(size, 11) + [0]
    && header[136..148] == OctalDigits(0, 11) + [0]
    && header[148..156] == Spaces(8)
    && header[156..512] == Back()
  }

  lemma {:induction false} OctalZeros(n: nat)
    ensures OctalDigits(0, n) == seq(n, _ => ZERO)
  {
    if n > 0 {
      OctalZeros(n - 1);
    }
  }

  lemma BlankIsFields(header: seq<u8>, path: seq<u8>, size: nat, mode: nat)
    requires |path| <= 100 && Blank(header, path, size, mode)
    ensures header == Fields(path, size, mode, Spaces(8))
    ensures header[..148] == Front(path, size, mode) && header[156..] == Back()
  {
    hide Zeros, OctalDigits, Spaces, Back;
    Cuts(header);
  }

  lemma Cuts(header: seq<u8>)
    requires |header| == BLOCK_SIZE
    ensures header[..148]
        == header[0..100] + header[100..108] + header[108..116] + header[116..124] + header[124..136] + header[136..148]
    ensures header == header[..148] + header[148..156] + header[156..]
    ensures header[156..] == header[156..512]
  {
  }

  /** Builds the header field by field in a zeroed block. */
  method BuildHeader(path: seq<u8>, size: u64, mode: u32) returns (r: Result<seq<u8>, ()>)
    requires |path| <= 100
    ensures r.Err? <==> mode >= Pow8(7) || size >= Pow8(11)
    ensures r.Ok? ==> r.value == HeaderOf(path, size, mode)
  {
    hide Pow8, OctalDigits, Sum, Front, Back, Spaces, Blank;
    var header := new u8[BLOCK_SIZE];
    var filled := FillBlank(header, path, size, mode);
    if filled.Err? {
      return Err(());
    }
    ghost var blank := header[..];
    BlankIsFields(blank, path, size, mode);
    var checksum := Sum(header[..]);
    SumBound(blank);
    SixDigits();
    var summed := WriteOctal(header, 148, 155, checksum);
    assert summed.Ok?;
    header[155] := SPACE;
    assert header[..] == blank[..148] + (header[148..155] + [SPACE]) + blank[156..];
    assert (OctalDigits(checksum, 6) + [0]) + [SPACE] == OctalDigits(checksum, 6) + [0, SPACE];
    r := Ok(header[..]);
  }

  lemma SixDigits()
    ensures Pow8(6) == 262144
  {
    assert Pow8(3) == 512;
  }

  /** Everything but the checksum, whose place holds spaces. */
  method FillBlank(header: array<u8>, path: seq<u8>, size: u64, mode: u32) returns (r: Result<(), ()>)
    requires |path| <= 100 && header.Length == BLOCK_SIZE
    modifies header
    ensures r.Err? <==> mode >= Pow8(7) || size >= Pow8(11)
    ensures r.Ok? ==> Blank(header[..], path, size, mode)
  {
    hide Pow8, OctalDigits;
    Fill(header, 0, BLOCK_SIZE, 0);
    StoreBytes(header, 0, path);
    var _ :- WriteOctal(header, 100, 108, mode);
    var _ :- WriteOctal(header, 124, 136, size);
    FillConstants(header);
    assert header[0..100] == path + Zeros(100 - |path|);
    assert header[100..108] == OctalDigits(mode, 7) + [0];
    assert header[124..136] == OctalDigits(size, 11) + [0];
    r := Ok(());
  }

  /** The fields that are the same for every file: owner, group, time, the type and the format. */
  method FillConstants(header: array<u8>)
    requires header.Length == BLOCK_SIZE && forall k :: 108 <= k < 124 || 136 <= k < BLOCK_SIZE ==> header[k] == 0
    modifies header
    ensures header[108..116] == OctalDigits(0, 7) + [0] && header[116..124] == OctalDigits(0, 7) + [0]
    ensures header[136..148] == OctalDigits(0, 11) + [0] && header[148..156] == Spaces(8) && header[156..512] == Back()
    ensures forall k :: 0 <= k < 108 || 124 <= k < 136 ==> header[k] == old(header[k])
  {
    hide OctalDigits;
    Fill(header, 108, 115, ZERO);
    Fill(header, 116, 123, ZERO);
    Fill(header, 136, 147, ZERO);
    Fill(header, 148, 156, SPACE);
    header[156] := ZERO;
    StoreBytes(header, 257, [0x75, 0x73, 0x74, 0x61, 0x72, 0]);
    StoreBytes(header, 263, [ZERO, ZERO]);
    OctalZeros(7);
    OctalZeros(11);
    assert header[108..116] == OctalDigits(0, 7) + [0];
    assert header[116..124] == OctalDigits(0, 7) + [0];
    assert header[136..148] == OctalDigits(0, 11) + [0];
    BackInPlace(header);
  }

  lemma BackInPlace(header: array<u8>)
    requires header.Length == BLOCK_SIZE && header[156] == ZERO
    requires header[257..263] == [0x75, 0x73, 0x74, 0x61, 0x72, 0] && header[263..265] == [ZERO, ZERO]
    requires forall k :: 157 <= k < 257 || 265 <= k < BLOCK_SIZE ==> header[k] == 0
    ensures header[156..512] == Back()
  {
    assert header[156..512]
        == [header[156]] + header[157..257] + header[257..263] + header[263..265] + header[265..512];
    assert header[157..257] == Zeros(100) && header[265..512] == Zeros(247);
  }

  method Fill(header: array<u8>, from: nat, to: nat, byte: u8)
    requires from <= to <= header.Length
    modifies header
    ensures forall k :: from <= k < to ==> header[k] == byte
    ensures forall k :: 0 <= k < from || to <= k < header.Length ==> header[k] == old(header[k])
  {
    for i := from to to
      invariant forall k :: from <= k < i ==> header[k] == byte
      invariant forall k :: 0 <= k < from || to <= k < header.Length ==> header[k] == old(header[k])
    {
      header[i] := byte;
    }
  }

  method StoreBytes(header: array<u8>, at: nat, bytes: seq<u8>)
    requires at + |bytes| <= header.Length
    modifies header
    ensures header[at..at + |bytes|] == bytes
    ensures forall k :: 0 <= k < at || at + |bytes| <= k < header.Length ==> header[k] == old(header[k])
  {
    for i := 0 to |bytes|
      invariant forall k :: 0 <= k < i ==> header[at + k] == bytes[k]
      invariant forall k :: 0 <= k < at || at + |bytes| <= k < header.Length ==> header[k] == old(header[k])
    {
      header[at + i] := bytes[i];
    }
  }
}
