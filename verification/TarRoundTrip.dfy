/** The writer and the layer parser (src/tar.rs lines 29-124 and 545-794): an
    archive of regular files parses into exactly its files, one entry each, or
    whiteouts where their names say so. */
module TarRoundTrip {
  import opened Numbers
  import opened Results
  import opened TarErrors
  import opened TarHeader
  import opened TarPath
  import opened TarPax
  import opened TarArchive
  import opened TarParser
  import TarWriter
  import TarExtractor

  // ----- what a member becomes

  /** Written paths always have a normal form. */
  lemma PathNormalizes(member: TarWriter.Member)
    requires TarWriter.Writable(member)
    ensures Normalized(member.path).Ok? && member.path != [] && member.path[|member.path| - 1] != 0
  {
    hide Normalized, Split;
    assert member.path[|member.path| - 1] in member.path;
  }

  function PathOf(member: TarWriter.Member): seq<u8>
    requires TarWriter.Writable(member)
  {
    PathNormalizes(member);
    Normalized(member.path).value
  }

  function EntryFor(member: TarWriter.Member): Entry
    requires TarWriter.Writable(member)
  {
    Entry(PathOf(member), Regular, |member.content|, member.mode, 0, 0, 0, None, None, None, [])
  }

  /** The parser has room for the path, and markers are empty. */
  ghost predicate Parses(member: TarWriter.Member, capacity: Capacity)
    requires TarWriter.Writable(member)
  {
    |member.path| <= capacity.path && (WhiteoutOf(PathOf(member)).Some? ==> member.content == [])
  }

  /** The events of a member, its data byte by byte. */
  ghost function EventsFor(member: TarWriter.Member): seq<Event>
    requires TarWriter.Writable(member)
  {
    match WhiteoutOf(PathOf(member))
    case Some((mark, about)) => [if mark == Remove then WhiteoutAt(about) else OpaqueAt(about)]
    case None => [BeginEntry(EntryFor(member))] + Bytewise(member.content) + [EndEntry]
  }

  /** Between entries, with nothing pending. */
  ghost predicate Clear(p: Parser)
  {
    && p.header == [] && p.remaining == 0 && p.padding == 0 && p.current == Nothing && !p.isOpen && p.zeros == 0
    && !p.longPath && !p.longLink && !p.hasPax
  }

  // ----- the header of a member

  lemma FrontFields(path: seq<u8>, size: nat, mode: nat)
    requires |path| <= 100
    ensures
      var front := TarWriter.Front(path, size, mode);
      && front[100..108] == OctalDigits(mode, 7) + [0] && front[108..116] == OctalDigits(0, 7) + [0]
      && front[116..124] == OctalDigits(0, 7) + [0] && front[136..148] == OctalDigits(0, 11) + [0]
  {
    hide OctalDigits;
    SixFields(path + Zeros(100 - |path|), OctalDigits(mode, 7) + [0], OctalDigits(0, 7) + [0],
              OctalDigits(0, 7) + [0], OctalDigits(size, 11) + [0], OctalDigits(0, 11) + [0]);
  }

  lemma SixFields(a: seq<u8>, b: seq<u8>, c: seq<u8>, d: seq<u8>, e: seq<u8>, f: seq<u8>)
    requires |a| == 100 && |b| == 8 && |c| == 8 && |d| == 8 && |e| == 12 && |f| == 12
    ensures
      var all := a + b + c + d + e + f;
      all[100..108] == b && all[108..116] == c && all[116..124] == d && all[136..148] == f
  {
  }

  lemma FieldNumber(value: nat, n: nat)
    requires 0 < n && value < Pow8(n) && value <= U64_MAX
    ensures ParseNumber(OctalDigits(value, n) + [0]) == Some(value)
  {
    hide ParseOctal, Pow8, OctalDigits;
    assert IsOctalDigit(OctalDigits(value, n)[0]);
    OctalFieldRoundTrip(value, n, [0]);
  }

  /** The fields that the extractor does not look at. */
  lemma MetadataReadsBack(member: TarWriter.Member)
    requires TarWriter.Writable(member) && |member.path| <= 100
    ensures
      var h := TarWriter.HeaderOf(member.path, |member.content|, member.mode);
      && Number(h, 100, 108) == Ok(member.mode) && Number(h, 108, 116) == Ok(0) && Number(h, 116, 124) == Ok(0)
      && Number(h, 136, 148) == Ok(0) && NulTerminated(h[157..257]) == []
  {
    hide TarWriter.HeaderOf, TarWriter.Front, TarWriter.Back, OctalDigits, ParseNumber, NulTerminated, Sum, Pow8,
        TarWriter.AcceptablePath;
    var path, size, mode := member.path, |member.content|, member.mode;
    var h, front, back := TarWriter.HeaderOf(path, size, mode), TarWriter.Front(path, size, mode), TarWriter.Back();
    TarExtractor.HeaderParts(path, size, mode);
    FrontFields(path, size, mode);
    TarExtractor.Within(h, front, 0, 100, 108);
    TarExtractor.Within(h, front, 0, 108, 116);
    TarExtractor.Within(h, front, 0, 116, 124);
    TarExtractor.Within(h, front, 0, 136, 148);
    TarExtractor.Within(h, back, 156, 1, 101);
    SmallEights();
    FieldNumber(mode, 7);
    FieldNumber(0, 7);
    FieldNumber(0, 11);
    EmptyLink();
  }

  lemma SmallEights()
    ensures 0 < Pow8(7) <= U64_MAX && 0 < Pow8(11)
  {
    assert Pow8(3) == 512;
  }

  lemma EmptyLink()
    ensures NulTerminated(TarWriter.Back()[1..101]) == []
  {
    var link := TarWriter.Back()[1..101];
    assert link[0] == 0;
  }

  lemma TrimmedAlready(path: seq<u8>)
    requires path != [] && path[|path| - 1] != 0
    ensures TrimNul(path) == path
  {
  }

  /** The parser behind a member's header, before its path is looked at. */
  ghost function Named(p: Parser, member: TarWriter.Member): Parser
    requires TarWriter.Writable(member)
  {
    p.(path := PathOf(member), link := [], remaining := |member.content|, padding := PaddingFor(|member.content|))
  }

  lemma NamesRead(p: Parser, member: TarWriter.Member, capacity: Capacity)
    requires Clear(p) && TarWriter.Writable(member) && |member.path| <= 100
    ensures
      var h := TarWriter.HeaderOf(member.path, |member.content|, member.mode);
      && EntryPath(p, h, NO_OVERRIDES, capacity) ==
           (if |member.path| > capacity.path then Err(BufferTooSmall(Path)) else Ok(PathOf(member)))
      && EntryLink(p, h, NO_OVERRIDES, Regular, PathOf(member), capacity) == Ok([])
  {
    hide TarWriter.HeaderOf, Normalized, HeaderPath, NulTerminated, ChecksumMatches, ParseNumber, Number;
    PathNormalizes(member);
    TarExtractor.HeaderReadsBack(member);
    MetadataReadsBack(member);
    TrimmedAlready(member.path);
  }

  lemma NothingPending(p: Parser)
    requires Clear(p)
    ensures Describe(p) == Ok(NO_OVERRIDES)
  {
  }

  /** What a member's header does. */
  lemma HeaderTaken(p: Parser, member: TarWriter.Member, capacity: Capacity)
    requires Clear(p) && TarWriter.Writable(member) && |member.path| <= 100
    ensures
      var h := TarWriter.HeaderOf(member.path, |member.content|, member.mode);
      TakeHeader(p, h, capacity) ==
        if |member.path| > capacity.path then Err(BufferTooSmall(Path)) else Announce(Named(p, member), h, Regular)
  {
    hide TarWriter.HeaderOf, EntryPath, EntryLink, Describe, Announce, ChecksumMatches, ParseNumber, PathOf;
    TarExtractor.HeaderReadsBack(member);
    NamesRead(p, member, capacity);
    NothingPending(p);
  }

  lemma Announced(p: Parser, member: TarWriter.Member)
    requires Clear(p) && TarWriter.Writable(member) && |member.path| <= 100
    ensures
      var h := TarWriter.HeaderOf(member.path, |member.content|, member.mode);
      var named := Named(p, member);
      Announce(named, h, Regular) ==
        match WhiteoutOf(PathOf(member))
        case Some((mark, about)) =>
          if member.content != [] then Err(InvalidWhiteout)
          else
            Ok(Outcome(named.(path := about, pax := [], current := Nothing),
                       [if mark == Remove then WhiteoutAt(about) else OpaqueAt(about)]))
        case None =>
          var begun := named.(current := Normal, isOpen := true, pax := []);
          if member.content != [] then Ok(Outcome(begun, [BeginEntry(EntryFor(member))]))
          else Ok(Outcome(begun.(isOpen := false, current := Nothing), [BeginEntry(EntryFor(member)), EndEntry]))
  {
    hide TarWriter.HeaderOf, PathOf, WhiteoutOf, Number, NulTerminated, PaddingFor;
    NoPadding();
    MetadataReadsBack(member);
    assert [BeginEntry(EntryFor(member))] + [EndEntry] == [BeginEntry(EntryFor(member)), EndEntry];
  }

  // ----- runs

  /** A run that ends where another begins. */
  lemma Joined(p: Parser, a: seq<u8>, first: Trace, b: seq<u8>, second: Trace, capacity: Capacity)
    requires Run(p, a, capacity) == first && first.end.Ok? && Run(first.end.value, b, capacity) == second
    ensures Run(p, a + b, capacity) == Trace(first.events + second.events, second.end)
  {
    hide Run;
    RunConcat(p, a, b, capacity);
  }

  lemma HeaderRuns(p: Parser, header: seq<u8>, capacity: Capacity)
    requires Clear(p) && |header| == BLOCK_SIZE
    ensures Run(p, header, capacity) ==
      match TakeHeader(p, header, capacity)
      case Err(e) => Trace([], Err(e))
      case Ok(o) => Trace(o.events, Ok(o.parser))
  {
    hide TakeHeader, Run;
    RunHeader(p, header, capacity);
    assert p.header + header == header && p.(header := []) == p;
  }

  /** The content of a member, and its padding. */
  lemma ContentRuns(p: Parser, content: seq<u8>, capacity: Capacity) returns (q: Parser)
    requires p.header == [] && p.zeros == 0 && p.current == Normal && p.isOpen && content != []
    requires p.remaining == |content| && p.padding == PaddingFor(|content|) && !p.longPath && !p.longLink && !p.hasPax
    ensures Clear(q)
        && Run(p, content + Zeros(PaddingFor(|content|)), capacity) == Trace(Bytewise(content) + [EndEntry], Ok(q))
  {
    hide Run, Bytewise, Explode, PaddingFor;
    var padding := PaddingFor(|content|);
    var ended := p.(remaining := 0, isOpen := false, current := if padding == 0 then Nothing else Normal);
    RunChunk(p, content, capacity);
    assert TakeChunk(p, content, capacity) == Ok(Outcome(ended, [EntryData(content)] + [EndEntry]));
    ExplodeConcat([EntryData(content)], [EndEntry]);
    ExplodeOne(EntryData(content));
    ExplodeOne(EndEntry);
    var first := Trace(Bytewise(content) + [EndEntry], Ok(ended));
    if padding == 0 {
      q := ended;
      assert content + Zeros(0) == content;
    } else {
      q := ended.(padding := 0, current := Nothing);
      RunPadding(ended, Zeros(padding), capacity);
      Joined(p, content, first, Zeros(padding), Trace([], Ok(q)), capacity);
      assert first.events + [] == first.events;
    }
  }

  /** A member parses into its events, and leaves the parser clear; if it does not fit, it is an error. */
  lemma MemberRuns(p: Parser, member: TarWriter.Member, capacity: Capacity) returns (q: Parser)
    requires Clear(p) && TarWriter.Writable(member)
    ensures |member.path| <= 100
    ensures Parses(member, capacity)
        ==> Clear(q) && Run(p, TarWriter.ImageOf(member), capacity) == Trace(EventsFor(member), Ok(q))
    ensures !Parses(member, capacity) ==> Run(p, TarWriter.ImageOf(member), capacity).end.Err?
  {
    hide Run, Bytewise, PaddingFor, PathOf, WhiteoutOf, TakeHeader, Announce, TarWriter.HeaderOf;
    TarExtractor.AcceptableHasNoNul(member.path);
    var h, content := TarWriter.HeaderOf(member.path, |member.content|, member.mode), member.content;
    var body := content + Zeros(PaddingFor(|content|));
    HeaderRuns(p, h, capacity);
    HeaderTaken(p, member, capacity);
    Announced(p, member);
    assert TarWriter.ImageOf(member) == h + body;
    RunConcat(p, h, body, capacity);
    q := p;
    if Parses(member, capacity) {
      q := Run(p, h, capacity).end.value;
      if content != [] {
        q := ContentRuns(q, content, capacity);
        assert [BeginEntry(EntryFor(member))] + (Bytewise(content) + [EndEntry]) == EventsFor(member);
      } else {
        NoPadding();
        assert body == [];
        NoBytes(q, body, capacity);
        NoContent(member);
      }
    }
  }

  lemma NoPadding()
    ensures PaddingFor(0) == 0
  {
  }

  lemma NoContent(member: TarWriter.Member)
    requires TarWriter.Writable(member) && member.content == []
    ensures WhiteoutOf(PathOf(member)).None? ==> EventsFor(member) == [BeginEntry(EntryFor(member)), EndEntry]
  {
    hide WhiteoutOf, PathOf;
  }

  // ----- archives

  ghost function AllEvents(members: seq<TarWriter.Member>): seq<Event>
    requires TarWriter.AllWritable(members)
  {
    if members == [] then []
    else
      assert TarWriter.Writable(members[|members| - 1]);
      assert TarWriter.AllWritable(members[..|members| - 1]);
      AllEvents(members[..|members| - 1]) + EventsFor(members[|members| - 1])
  }

  ghost predicate AllParse(members: seq<TarWriter.Member>, capacity: Capacity)
    requires TarWriter.AllWritable(members)
  {
    forall k :: 0 <= k < |members| ==> TarWriter.Writable(members[k]) && Parses(members[k], capacity)
  }

  lemma {:induction false} MembersRun(members: seq<TarWriter.Member>, capacity: Capacity) returns (q: Parser)
    requires TarWriter.AllWritable(members)
    ensures AllParse(members, capacity)
        ==> Clear(q) && Run(START, TarWriter.Image(members), capacity) == Trace(AllEvents(members), Ok(q))
    ensures !AllParse(members, capacity) ==> Run(START, TarWriter.Image(members), capacity).end.Err?
  {
    hide Run, Parses, EventsFor, TarWriter.ImageOf, TarWriter.Writable;
    q := START;
    if members == [] {
      NoBytes(START, [], capacity);
    } else {
      var n := |members| - 1;
      var earlier, last := members[..n], members[n];
      assert TarWriter.Writable(members[n]);
      assert TarWriter.AllWritable(earlier);
      assert AllParse(members, capacity) <==> AllParse(earlier, capacity) && Parses(last, capacity);
      var before := MembersRun(earlier, capacity);
      PathIsShort(last);
      RunConcat(START, TarWriter.Image(earlier), TarWriter.ImageOf(last), capacity);
      if AllParse(earlier, capacity) {
        q := MemberRuns(before, last, capacity);
      }
    }
  }

  lemma PathIsShort(member: TarWriter.Member)
    requires TarWriter.Writable(member)
    ensures |member.path| <= 100
  {
    TarExtractor.AcceptableHasNoNul(member.path);
  }

  /** Two zero blocks end the archive. */
  lemma EndRuns(p: Parser, capacity: Capacity) returns (q: Parser)
    requires Clear(p)
    ensures Run(p, Zeros(2 * BLOCK_SIZE), capacity) == Trace([], Ok(q)) && FinishOf(q) == Ok(())
  {
    hide Run;
    var block := Zeros(BLOCK_SIZE);
    var middle := p.(zeros := 1);
    q := p.(zeros := 2);
    HeaderRuns(p, block, capacity);
    RunHeader(middle, block, capacity);
    assert middle.header + block == block;
    ZerosAppend(BLOCK_SIZE, BLOCK_SIZE);
    Joined(p, block, Trace([], Ok(middle)), block, Trace([], Ok(q)), capacity);
  }

  /** An archive of regular files is accepted by the layer parser if and only if every path fits its buffer and every
      marker is empty; and then its events are exactly those of its files, in order. */
  lemma WrittenArchiveParses(members: seq<TarWriter.Member>, capacity: Capacity)
    requires TarWriter.AllWritable(members)
    ensures
      var trace := Run(START, TarWriter.Image(members) + Zeros(2 * BLOCK_SIZE), capacity);
      && (trace.end.Ok? && FinishOf(trace.end.value).Ok? <==> AllParse(members, capacity))
      && (AllParse(members, capacity) ==> trace.events == AllEvents(members))
  {
    hide Run, Clear, AllParse, AllEvents, FinishOf;
    var q := MembersRun(members, capacity);
    RunConcat(START, TarWriter.Image(members), Zeros(2 * BLOCK_SIZE), capacity);
    if AllParse(members, capacity) {
      var end := EndRuns(q, capacity);
      assert AllEvents(members) + [] == AllEvents(members);
    }
  }

  /** The one empty file ".wh..." makes an archive that is written, accepted, and tells the sink to remove "..". */
  lemma WhiteoutLeavesArchive(mode: u32, capacity: Capacity)
    requires mode < Pow8(7) && 6 <= capacity.path
    ensures
      var members := [TarWriter.Member(WHITEOUT_PREFIX + DOT_DOT, mode, [])];
      && TarWriter.AllWritable(members)
      && var trace := Run(START, TarWriter.Image(members) + Zeros(2 * BLOCK_SIZE), capacity);
         && trace.end.Ok? && FinishOf(trace.end.value).Ok? && trace.events == [WhiteoutAt(DOT_DOT)]
  {
    hide Run, FinishOf, WhiteoutOf, Normalized, Split, WHITEOUT_PREFIX, DOT_DOT, TarWriter.Image, Pow8;
    var member := TarWriter.Member(WHITEOUT_PREFIX + DOT_DOT, mode, []);
    SmallEights();
    MarkerLeavesRoot();
    MarkerIsAcceptable();
    assert [member][..0] == [];
    assert AllEvents([member]) == [] + EventsFor(member);
    WrittenArchiveParses([member], capacity);
  }

  lemma MarkerIsAcceptable()
    requires IsNormal(WHITEOUT_PREFIX + DOT_DOT)
    ensures TarWriter.AcceptablePath(WHITEOUT_PREFIX + DOT_DOT) && |WHITEOUT_PREFIX + DOT_DOT| == 6
  {
    hide Split;
  }
}
