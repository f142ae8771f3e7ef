/** The single-entry extractor (src/tar.rs lines 200-332 and 366-377). Its meaning is given
    byte by byte, so that chunking cannot matter; what it extracts from an
    archive of the writer is proved to be the first file of that path. */
module TarExtractor {
  import opened Numbers
  import opened Results
  import opened Concatenation
  import opened TarHeader
  import TarWriter

  datatype ExtractError = InvalidChecksum | InvalidSize | InvalidEndMarker
  datatype FinishError = UnexpectedEof | NotFound

  function PathMatches(header: seq<u8>, target: seq<u8>): bool
    requires |header| == BLOCK_SIZE
  {
    var name, prefix := NulTerminated(header[0..100]), NulTerminated(header[345..500]);
    if prefix == [] then target == name
    else
      && |target| == |prefix| + 1 + |name| && prefix <= target
      && target[|prefix|] == SLASH && target[|prefix| + 1..] == name
  }

  /** Comparing in pieces is comparing with the joined path. */
  lemma MatchingIsEquality(header: seq<u8>, target: seq<u8>)
    requires |header| == BLOCK_SIZE
    ensures PathMatches(header, target) <==> target == HeaderPath(header)
  {
    hide NulTerminated;
    var name, prefix := NulTerminated(header[0..100]), NulTerminated(header[345..500]);
    var joined := prefix + [SLASH] + name;
    assert joined[|prefix|] == SLASH && joined[|prefix| + 1..] == name && joined[..|prefix|] == prefix;
    if prefix != [] && PathMatches(header, target) {
      assert target == target[..|prefix|] + [target[|prefix|]] + target[|prefix| + 1..];
    }
  }

  // ----- byte by byte

  /** `out` is everything handed to the output so far. A header that is full could not be used: the extraction is
      stuck. */
  datatype Extraction = Extraction(target: seq<u8>, header: seq<u8>, remaining: nat, padding: nat, selected: bool,
      found: bool,
                                   zeros: nat, out: seq<u8>)
  {
    predicate Stuck()
    {
      |header| == BLOCK_SIZE
    }

    predicate Over()
    {
      zeros == 2 || Stuck()
    }
  }

  function Start(target: seq<u8>): Extraction
  {
    Extraction(target, [], 0, 0, false, false, 0, [])
  }

  /** What a full header means: an error, or the state behind it. */
  ghost function TakeHeader(s: Extraction, header: seq<u8>): (r: Result<Extraction, ExtractError>)
    requires |header| == BLOCK_SIZE
    ensures r.Ok? ==> r.value.header == []
  {
    if header == Zeros(BLOCK_SIZE) then Ok(s.(zeros := s.zeros + 1, header := []))
    else if s.zeros != 0 then Err(InvalidEndMarker)
    else if !ChecksumMatches(header) then Err(InvalidChecksum)
    else
      match ParseNumber(header[124..136])
      case None => Err(InvalidSize)
      case Some(size) =>
        var selected := !s.found && (header[156] == 0 || header[156] == ZERO) && HeaderPath(header) == s.target;
        Ok(s.(header := [], remaining := size, padding := PaddingFor(size), selected := selected,
            found := s.found || selected))
  }

  ghost function Step(s: Extraction, byte: u8): Extraction
  {
    if s.Over() then s
    else if s.remaining != 0 then
      s.(remaining := s.remaining - 1, out := if s.selected then s.out + [byte] else s.out)
    else if s.padding != 0 then s.(padding := s.padding - 1)
    else if |s.header| + 1 != BLOCK_SIZE then s.(header := s.header + [byte])
    else
      match TakeHeader(s, s.header + [byte])
      case Err(_) => s.(header := s.header + [byte])
      case Ok(next) => next
  }

  ghost function Run(s: Extraction, bytes: seq<u8>): Extraction
    decreases |bytes|
  {
    if bytes == [] then s else Run(Step(s, bytes[0]), bytes[1..])
  }

  /** Chunking cannot matter. */
  lemma {:induction false} RunConcat(s: Extraction, a: seq<u8>, b: seq<u8>)
    ensures Run(s, a + b) == Run(Run(s, a), b)
    decreases |a|
  {
    if a == [] {
      assert a + b == b;
    } else {
      assert (a + b)[0] == a[0] && (a + b)[1..] == a[1..] + b;
      RunConcat(Step(s, a[0]), a[1..], b);
    }
  }

  lemma {:induction false} RunOver(s: Extraction, bytes: seq<u8>)
    requires s.Over()
    ensures Run(s, bytes) == s
    decreases |bytes|
  {
    if bytes != [] {
      RunOver(s, bytes[1..]);
    }
  }

  lemma {:induction false} RunContent(s: Extraction, bytes: seq<u8>)
    requires !s.Over() && |bytes| <= s.remaining
    ensures Run(s, bytes) == s.(remaining := s.remaining - |bytes|, out := if s.selected then s.out + bytes else s.out)
    decreases |bytes|
  {
    if bytes == [] {
      assert s.out + bytes == s.out;
    } else {
      RunContent(Step(s, bytes[0]), bytes[1..]);
      assert s.out + [bytes[0]] + bytes[1..] == s.out + bytes;
    }
  }

  lemma {:induction false} RunPadding(s: Extraction, bytes: seq<u8>)
    requires !s.Over() && s.remaining == 0 && |bytes| <= s.padding
    ensures Run(s, bytes) == s.(padding := s.padding - |bytes|)
    decreases |bytes|
  {
    if bytes != [] {
      RunPadding(Step(s, bytes[0]), bytes[1..]);
    }
  }

  lemma {:induction false} RunHeader(s: Extraction, bytes: seq<u8>)
    requires !s.Over() && s.remaining == 0 && s.padding == 0 && 0 < |s.header| + |bytes| <= BLOCK_SIZE
    ensures Run(s, bytes) ==
      if |s.header| + |bytes| < BLOCK_SIZE then s.(header := s.header + bytes)
      else
        match TakeHeader(s, s.header + bytes)
        case Err(_) => s.(header := s.header + bytes)
        case Ok(next) => next
    decreases |bytes|
  {
    hide TakeHeader;
    if bytes == [] {
      assert s.header + bytes == s.header;
    } else if |s.header| + 1 == BLOCK_SIZE {
      assert bytes == [bytes[0]];
    } else {
      var next := s.(header := s.header + [bytes[0]]);
      assert (s.header + [bytes[0]]) + bytes[1..] == s.header + bytes;
      RunHeader(next, bytes[1..]);
      HeaderDoesNotMatter(s, next, s.header + bytes);
    }
  }

  lemma HeaderDoesNotMatter(s: Extraction, next: Extraction, header: seq<u8>)
    requires next == s.(header := next.header)
    ensures |header| == BLOCK_SIZE ==> TakeHeader(s, header) == TakeHeader(next, header)
    ensures next.(header := header) == s.(header := header)
  {
  }

  // ----- the extractor

  class EntryExtractor {
    const target: seq<u8>
    const header: array<u8>
    var headerLen: nat
    var entryRemaining: u64
    var paddingRemaining: nat
    var selected: bool
    var found: bool
    var zeroBlocks: nat
    ghost var out: seq<u8>

    ghost predicate Shaped()
      reads this
    {
      && header.Length == BLOCK_SIZE && headerLen <= BLOCK_SIZE && zeroBlocks <= 2
      && (entryRemaining != 0 || paddingRemaining != 0 || zeroBlocks == 2 ==> headerLen == 0)
    }

    /** A header stays full only if it could not be used. */
    ghost predicate Valid()
      reads this, header
    {
      Shaped() && (headerLen == BLOCK_SIZE ==> TakeHeader(View(), View().header).Err?)
    }

    ghost function View(): Extraction
      reads this, header
      requires Shaped()
    {
      Extraction(target, header[..headerLen], entryRemaining, paddingRemaining, selected, found, zeroBlocks, out)
    }

    constructor (target: seq<u8>)
      ensures Valid() && View() == Start(target)
    {
      this.target := target;
      header := new u8[BLOCK_SIZE](_ => 0);
      headerLen, entryRemaining, paddingRemaining, zeroBlocks := 0, 0, 0, 0;
      selected, found, out := false, false, [];
    }

    /** Uses a full header. */
    method ConsumeHeader() returns (r: Result<(), ExtractError>)
      requires Shaped() && headerLen == BLOCK_SIZE && entryRemaining == 0 && paddingRemaining == 0 && zeroBlocks < 2
      modifies this
      ensures Shaped() && out == old(out)
      ensures
        match TakeHeader(old(View()), old(View().header))
        case Err(e) => r == Err(e) && View() == old(View())
        case Ok(next) => r == Ok(()) && View() == next
    {
      hide ChecksumMatches, ParseNumber, HeaderPath, PathMatches;
      assert header[..BLOCK_SIZE] == header[..];
      if forall k :: 0 <= k < header.Length ==> header[k] == 0 {
        assert header[..] == Zeros(BLOCK_SIZE);
        zeroBlocks := zeroBlocks + 1;
        headerLen := 0;
        assert header[..0] == [];
        return Ok(());
      }
      if zeroBlocks != 0 {
        return Err(InvalidEndMarker);
      }
      var verified := VerifyChecksum(header[..]);
      if !verified {
        return Err(InvalidChecksum);
      }
      var size := ParseNumberField(header[124..136]);
      if size == None {
        return Err(InvalidSize);
      }
      assert header[..][124..136] == header[124..136];
      var isRegular := header[156] == 0 || header[156] == ZERO;
      MatchingIsEquality(header[..], target);
      selected := !found && isRegular && PathMatches(header[..], target);
      found := found || selected;
      entryRemaining := size.value;
      paddingRemaining := PaddingFor(size.value);
      headerLen := 0;
      assert header[..0] == [];
      r := Ok(());
    }

    /** Consumes a fragment, and hands out the part of it that belongs to the entry. */
    method Push(input: seq<u8>) returns (r: Result<(), ExtractError>, output: seq<u8>)
      requires Valid()
      modifies this, header
      ensures Valid() && View() == Run(old(View()), input) && out == old(out) + output
      ensures r.Ok? ==> input == [] || !View().Stuck()
      ensures r.Err? ==> View().Stuck() && TakeHeader(View(), View().header) == Err(r.error)
    {
      hide TakeHeader, Run, Zeros;
      output := [];
      ghost var start := View();
      var rest := input;
      while |rest| > 0
        invariant Valid() && out == old(out) + output && Run(View(), rest) == Run(start, input)
        invariant |rest| < |input| ==> headerLen < BLOCK_SIZE
        invariant |rest| <= |input|
        decreases |rest|
      {
        ghost var now := View();
        if zeroBlocks == 2 {
          RunOver(now, rest);
          return Ok(()), output;
        }
        if entryRemaining != 0 {
          var length := Min(|rest|, entryRemaining);
          Cut(now, rest, length);
          RunContent(now, rest[..length]);
          if selected {
            output := output + rest[..length];
            out := out + rest[..length];
          }
          entryRemaining := entryRemaining - length;
          rest := rest[length..];
          continue;
        }
        if paddingRemaining != 0 {
          var length := Min(|rest|, paddingRemaining);
          Cut(now, rest, length);
          RunPadding(now, rest[..length]);
          paddingRemaining := paddingRemaining - length;
          rest := rest[length..];
          continue;
        }
        var length := Min(|rest|, BLOCK_SIZE - headerLen);
        var failed := CollectHeader(rest, length);
        if failed.Some? {
          return Err(failed.value), output;
        }
        rest := rest[length..];
      }
      RunNothing(View(), rest);
      r := Ok(());
    }

    method Finish() returns (r: Result<(), FinishError>)
      requires Valid()
      ensures r == FinishOf(View())
    {
      assert |View().header| == headerLen;
      if zeroBlocks != 2 || headerLen != 0 || entryRemaining != 0 || paddingRemaining != 0 {
        return Err(UnexpectedEof);
      }
      if !found {
        return Err(NotFound);
      }
      r := Ok(());
    }

    /** Adds bytes to the header, and uses it once it is full. */
    method CollectHeader(input: seq<u8>, length: nat) returns (failed: Option<ExtractError>)
      requires Valid() && zeroBlocks < 2 && entryRemaining == 0 && paddingRemaining == 0
      requires input != [] && length == Min(|input|, BLOCK_SIZE - headerLen)
      modifies this, header
      ensures Valid() && out == old(out)
      ensures failed.None?
          ==> headerLen < BLOCK_SIZE && length > 0 && Run(View(), input[length..]) == Run(old(View()), input)
      ensures failed.Some? ==> View().Stuck() && View() == Run(old(View()), input)
      ensures failed.Some? ==> TakeHeader(View(), View().header) == Err(failed.value)
    {
      hide TakeHeader, Run, Zeros;
      ghost var start := View();
      var from := headerLen;
      for i := 0 to length
        modifies header
        invariant forall k :: 0 <= k < i ==> header[from + k] == input[k]
        invariant forall k :: 0 <= k < from ==> header[k] == old(header[k])
      {
        header[from + i] := input[i];
      }
      headerLen := from + length;
      Collected(header, from, start.header, input, length);
      ghost var full := View();
      Cut(start, input, length);
      if start.Stuck() {
        RunOver(start, input);
        assert full == start;
      } else {
        RunHeader(start, input[..length]);
        HeaderDoesNotMatter(start, full, full.header);
      }
      if headerLen == BLOCK_SIZE {
        var consumed := ConsumeHeader();
        if consumed.Err? {
          RunOver(full, input[length..]);
          return Some(consumed.error);
        }
        assert |View().header| == 0;
      }
      failed := None;
    }
  }

  lemma Collected(header: array<u8>, from: nat, before: seq<u8>, input: seq<u8>, length: nat)
    requires from + length <= header.Length && |before| == from && length <= |input|
    requires forall k :: 0 <= k < from ==> header[k] == before[k]
    requires forall k :: 0 <= k < length ==> header[from + k] == input[k]
    ensures header[..from + length] == before + input[..length]
  {
    forall k | 0 <= k < from + length
      ensures header[..from + length][k] == (before + input[..length])[k]
    {
      assert k >= from ==> header[from + (k - from)] == input[k - from];
    }
  }

  /** Reports whether the requested entry has been encountered, and the archive is complete. */
  function FinishOf(s: Extraction): Result<(), FinishError>
  {
    if s.zeros != 2 || s.header != [] || s.remaining != 0 || s.padding != 0 then Err(UnexpectedEof)
    else if !s.found then Err(NotFound)
    else Ok(())
  }

  method VerifyChecksum(header: seq<u8>) returns (valid: bool)
    requires |header| == BLOCK_SIZE
    ensures valid <==> ChecksumMatches(header)
  {
    hide Sum, ParseOctal;
    var expected := ParseOctalField(header[148..156]);
    valid := expected == Some(Sum(header[..148]) + 8 * SPACE as int + Sum(header[156..]));
  }

  lemma Cut(s: Extraction, input: seq<u8>, length: nat)
    requires length <= |input|
    ensures Run(s, input) == Run(Run(s, input[..length]), input[length..])
  {
    assert input == input[..length] + input[length..];
    RunConcat(s, input[..length], input[length..]);
  }

  lemma RunNothing(s: Extraction, input: seq<u8>)
    requires input == []
    ensures Run(s, input) == s
  {
  }

  // ----- what the writer writes, the extractor finds

  /** The content of the first member of that path. */
  function FirstContent(members: seq<TarWriter.Member>, target: seq<u8>): Option<seq<u8>>
  {
    if members == [] then None
    else
      var earlier := FirstContent(members[..|members| - 1], target);
      var last := members[|members| - 1];
      if earlier.Some? then earlier else if last.path == target then Some(last.content) else None
  }

  /** First means first. */
  lemma {:induction false} FirstContentIsFirst(members: seq<TarWriter.Member>, target: seq<u8>)
    ensures
      match FirstContent(members, target)
      case None => forall k :: 0 <= k < |members| ==> members[k].path != target
      case Some(content) =>
        exists k :: 0 <= k < |members| && members[k].path == target && members[k].content == content
                    && forall j :: 0 <= j < k ==> members[j].path != target
  {
    if members != [] {
      var earlier := members[..|members| - 1];
      FirstContentIsFirst(earlier, target);
      if FirstContent(earlier, target).Some? {
        var k :| 0 <= k < |earlier| && earlier[k].path == target
            && earlier[k].content == FirstContent(earlier, target).value
                 && forall j :: 0 <= j < k ==> earlier[j].path != target;
        assert members[k] == earlier[k] && forall j :: 0 <= j < k ==> members[j] == earlier[j];
      } else {
        assert forall j :: 0 <= j < |earlier| ==> members[j] == earlier[j];
      }
    }
  }

  lemma EleventhPower()
    ensures TarHeader.Pow8(11) == 8589934592
  {
    assert Pow8(4) == 4096;
    assert Pow8(8) == 16777216;
  }

  lemma HeaderParts(path: seq<u8>, size: nat, mode: nat)
    requires |path| <= 100
    ensures
      var sum := Sum(TarWriter.Front(path, size, mode)) + 8 * SPACE as int + Sum(TarWriter.Back());
      var h := TarWriter.HeaderOf(path, size, mode);
      && h[..148] == TarWriter.Front(path, size, mode) && h[156..] == TarWriter.Back()
      && h[148..156] == OctalDigits(sum, 6) + [0, SPACE] && sum < TarHeader.Pow8(6)
  {
    hide TarWriter.Front, TarWriter.Back, OctalDigits;
    var front, back := TarWriter.Front(path, size, mode), TarWriter.Back();
    SumConcat(front + TarWriter.Spaces(8), back);
    SumConcat(front, TarWriter.Spaces(8));
    SumOfSpaces(8);
    SumBound(front);
    SumBound(back);
    TarWriter.SixDigits();
    var sum := Sum(front) + 8 * SPACE as int + Sum(back);
    Pieces(front, OctalDigits(sum, 6) + [0, SPACE], back);
  }

  lemma Pieces(front: seq<u8>, checksum: seq<u8>, back: seq<u8>)
    requires |front| == 148 && |checksum| == 8
    ensures (front + checksum + back)[..148] == front
    ensures (front + checksum + back)[148..156] == checksum
    ensures (front + checksum + back)[156..] == back
  {
  }

  lemma {:induction false} SumOfSpaces(n: nat)
    ensures Sum(TarWriter.Spaces(n)) == n * SPACE as int
  {
    if n == 0 {
    } else {
      assert TarWriter.Spaces(n)[..n - 1] == TarWriter.Spaces(n - 1);
      SumOfSpaces(n - 1);
    }
  }

  lemma FrontParts(path: seq<u8>, size: nat, mode: nat)
    requires |path| <= 100
    ensures TarWriter.Front(path, size, mode)[0..100] == path + Zeros(100 - |path|)
    ensures TarWriter.Front(path, size, mode)[124..136] == OctalDigits(size, 11) + [0]
  {
    hide OctalDigits;
    var a, b, c, d, e, f := path + Zeros(100 - |path|), OctalDigits(mode, 7) + [0], OctalDigits(0, 7) + [0],
      OctalDigits(0, 7) + [0], OctalDigits(size, 11) + [0], OctalDigits(0, 11) + [0];
    SixPieces(a, b, c, d, e, f);
  }

  lemma SixPieces(a: seq<u8>, b: seq<u8>, c: seq<u8>, d: seq<u8>, e: seq<u8>, f: seq<u8>)
    requires |a| == 100 && |b| == 8 && |c| == 8 && |d| == 8 && |e| == 12
    ensures (a + b + c + d + e + f)[0..100] == a
    ensures (a + b + c + d + e + f)[124..136] == e
  {
  }

  lemma BackParts()
    ensures TarWriter.Back()[0] == ZERO && TarWriter.Back()[189..344] == Zeros(155)
  {
    var back, zeros := TarWriter.Back(), Zeros(155);
    assert forall k :: 109 <= k < 356 ==> back[k] == 0;
    assert back[189..344] == zeros;
  }

  lemma Within(whole: seq<u8>, part: seq<u8>, at: nat, from: nat, to: nat)
    requires at + |part| <= |whole| && whole[at..at + |part|] == part && from <= to <= |part|
    ensures whole[at + from..at + to] == part[from..to]
  {
    var left, right, slice := whole[at + from..at + to], part[from..to], whole[at..at + |part|];
    forall k | 0 <= k < to - from
      ensures left[k] == right[k]
    {
      assert slice[from + k] == whole[at + (from + k)];
    }
  }

  /** A written header is not an end marker, passes its checksum, and reads back as what was written. */
  lemma HeaderReadsBack(member: TarWriter.Member)
    requires TarWriter.Writable(member)
    ensures |member.path| <= 100
    ensures
      var h := TarWriter.HeaderOf(member.path, |member.content|, member.mode);
      && h != Zeros(BLOCK_SIZE) && ChecksumMatches(h) && h[156] == ZERO
      && ParseNumber(h[124..136]) == Some(|member.content|) && HeaderPath(h) == member.path
  {
    hide TarWriter.HeaderOf, TarWriter.Front, TarWriter.Back, OctalDigits, ParseOctal, NulTerminated, Sum, Pow8,
        TarWriter.AcceptablePath;
    var path, size, mode := member.path, |member.content|, member.mode;
    AcceptableHasNoNul(path);
    var h, front, back := TarWriter.HeaderOf(path, size, mode), TarWriter.Front(path, size, mode), TarWriter.Back();
    HeaderParts(path, size, mode);
    FrontParts(path, size, mode);
    BackParts();
    EleventhPower();
    TarWriter.SixDigits();
    OctalFieldRoundTrip(Sum(front) + 8 * SPACE as int + Sum(back), 6, [0, SPACE]);
    OctalFieldRoundTrip(size, 11, [0]);
    Within(h, front, 0, 0, 100);
    Within(h, front, 0, 124, 136);
    Within(h, back, 156, 189, 344);
    assert h[156] == h[156..][0];
    assert h[124..136] == OctalDigits(size, 11) + [0];
    FirstDigit(size);
    NulTerminatedName(path, 100 - |path|);
    NulTerminatedName([], 155);
    assert [] + Zeros(155) == Zeros(155);
  }

  lemma FirstDigit(size: nat)
    ensures (OctalDigits(size, 11) + [0])[0] < 0x80 && OctalDigits(size, 11) + [0] != []
  {
    hide OctalDigits;
    assert IsOctalDigit(OctalDigits(size, 11)[0]);
  }

  lemma AcceptableHasNoNul(path: seq<u8>)
    requires TarWriter.AcceptablePath(path)
    ensures 0 < |path| <= 100 && 0 !in path
  {
  }

  /** Between entries. */
  ghost predicate AtBoundary(s: Extraction)
  {
    s.header == [] && s.remaining == 0 && s.padding == 0 && s.zeros == 0
  }

  lemma RunMember(s: Extraction, member: TarWriter.Member)
    requires AtBoundary(s) && TarWriter.Writable(member)
    ensures |member.path| <= 100
    ensures
      var chosen := !s.found && member.path == s.target;
      Run(s, TarWriter.ImageOf(member)) ==
        s.(selected := chosen, found := s.found || chosen, out := if chosen then s.out + member.content else s.out)
  {
    hide TarWriter.HeaderOf, TarWriter.Writable, Run, ParseNumber, HeaderPath, ChecksumMatches, Zeros;
    HeaderReadsBack(member);
    var header := TarWriter.HeaderOf(member.path, |member.content|, member.mode);
    var padding := Zeros(PaddingFor(|member.content|));
    RunConcat(s, header + member.content, padding);
    RunConcat(s, header, member.content);
    RunHeader(s, header);
    assert s.header + header == header;
    var entered := Run(s, header);
    RunContent(entered, member.content);
    RunPadding(Run(entered, member.content), padding);
  }

  lemma {:induction false} RunMembers(members: seq<TarWriter.Member>, target: seq<u8>)
    requires TarWriter.AllWritable(members)
    ensures
      var s := Run(Start(target), TarWriter.Image(members));
      var first := FirstContent(members, target);
      AtBoundary(s) && s.target == target && s.found == first.Some?
          && s.out == (if first.Some? then first.value else [])
  {
    hide TarWriter.ImageOf, TarWriter.Writable;
    if members != [] {
      var earlier, last := members[..|members| - 1], members[|members| - 1];
      assert TarWriter.AllWritable(earlier) && TarWriter.Writable(last);
      RunMembers(earlier, target);
      WritableFits(last);
      RunConcat(Start(target), TarWriter.Image(earlier), TarWriter.ImageOf(last));
      RunMember(Run(Start(target), TarWriter.Image(earlier)), last);
    }
  }

  lemma WritableFits(member: TarWriter.Member)
    requires TarWriter.Writable(member)
    ensures |member.path| <= 100
  {
  }

  lemma RunEnd(s: Extraction)
    requires AtBoundary(s)
    ensures Run(s, Zeros(2 * BLOCK_SIZE)) == s.(zeros := 2)
  {
    hide Run, Zeros;
    ZerosAppend(BLOCK_SIZE, BLOCK_SIZE);
    RunConcat(s, Zeros(BLOCK_SIZE), Zeros(BLOCK_SIZE));
    assert s.header + Zeros(BLOCK_SIZE) == Zeros(BLOCK_SIZE);
    RunHeader(s, Zeros(BLOCK_SIZE));
    var once := s.(zeros := 1);
    assert once.header + Zeros(BLOCK_SIZE) == Zeros(BLOCK_SIZE);
    RunHeader(once, Zeros(BLOCK_SIZE));
  }

  /** Whatever is written is found again: the first file of the path, byte for byte, or nothing. */
  lemma RoundTrip(members: seq<TarWriter.Member>, target: seq<u8>)
    requires TarWriter.AllWritable(members)
    ensures
      var s := Run(Start(target), TarWriter.Image(members) + Zeros(2 * BLOCK_SIZE));
      match FirstContent(members, target)
      case None => s.out == [] && FinishOf(s) == Err(NotFound)
      case Some(content) => s.out == content && FinishOf(s) == Ok(())
  {
    hide TarWriter.Image, Zeros, Run, FirstContent;
    RunMembers(members, target);
    RunConcat(Start(target), TarWriter.Image(members), Zeros(2 * BLOCK_SIZE));
    RunEnd(Run(Start(target), TarWriter.Image(members)));
  }

  /** The round trip, through the two classes: an archive that a writer has finished, fed to an
      extractor in fragments of any sizes, yields the first file of the path and `Ok`, or `NotFound`. */
  method ExtractWritten(writer: TarWriter.TarWriter, extractor: EntryExtractor, fragments: seq<seq<u8>>)
    returns (output: seq<u8>, verdict: Result<(), FinishError>)
    requires writer.Valid() && writer.state == TarWriter.Finished && Flatten(fragments) == writer.emitted
    requires extractor.Valid() && extractor.View() == Start(extractor.target)
    modifies extractor, extractor.header
    ensures
      match FirstContent(writer.members, extractor.target)
      case None => output == [] && verdict == Err(NotFound)
      case Some(content) => output == content && verdict == Ok(())
  {
    hide Run, TarWriter.Image, FirstContent, TakeHeader, Zeros, FinishOf;
    ghost var members, target, whole := writer.members, extractor.target, writer.emitted;
    RoundTrip(members, target);
    output := [];
    for i := 0 to |fragments|
      invariant extractor.Valid() && extractor.out == output
      invariant Run(extractor.View(), Flatten(fragments[i..])) == Run(Start(target), whole)
    {
      ghost var now := extractor.View();
      assert fragments[i..][1..] == fragments[i + 1..];
      RunConcat(now, fragments[i], Flatten(fragments[i + 1..]));
      var pushed, more := extractor.Push(fragments[i]);
      if pushed.Err? {
        RunOver(extractor.View(), Flatten(fragments[i + 1..]));
        StuckIsUnfinished(extractor.View());
        assert false;
      }
      output := output + more;
    }
    RunNothing(extractor.View(), Flatten(fragments[|fragments|..]));
    verdict := extractor.Finish();
  }

  lemma StuckIsUnfinished(s: Extraction)
    requires s.Stuck()
    ensures FinishOf(s) == Err(UnexpectedEof)
  {
  }
}
