/** The layer parser (src/tar.rs lines 503-794 and 854-915): ustar, PAX and GNU long names,
    as a byte-by-byte machine that emits events. Its event grammar is proved
    here for every run; the buffered parser is in TarParser. */
module TarArchive {
  import opened Numbers
  import opened Results
  import opened Concatenation
  import opened AsciiText
  import opened TarErrors
  import opened TarHeader
  import opened TarPath
  import opened TarPax

  // ----- events

  datatype EntryKind =
    | Regular | HardLink | SymbolicLink | CharacterDevice | BlockDevice | Directory | Fifo | Contiguous
        | Other(flag: u8)

  datatype Entry = Entry(path: seq<u8>, kind: EntryKind, size: nat, mode: nat, uid: nat, gid: nat, mtime: nat,
                         linkTarget: Option<seq<u8>>, deviceMajor: Option<nat>, deviceMinor: Option<nat>, pax: seq<u8>)

  datatype Event =
    | BeginEntry(entry: Entry)
    | EntryData(bytes: seq<u8>)
    | EndEntry
    | WhiteoutAt(path: seq<u8>)
    | OpaqueAt(path: seq<u8>)

  // ----- the state

  datatype Current = Nothing | Normal | LongPath | LongLink | PaxHeader

  /** The lengths of the caller's buffers. */
  datatype Capacity = Capacity(path: nat, link: nat, pax: nat)

  datatype Parser = Parser(header: seq<u8>, remaining: nat, padding: nat, current: Current, isOpen: bool, zeros: nat,
                           path: seq<u8>, link: seq<u8>, pax: seq<u8>,
                           longPath: bool, longLink: bool, hasPax: bool)

  const START := Parser([], 0, 0, Nothing, false, 0, [], [], [], false, false, false)

  /** Where a step leads, and the events it emits. */
  datatype Outcome = Outcome(parser: Parser, events: seq<Event>)

  function KindOf(flag: u8): EntryKind
  {
    if flag == 0 || flag == 0x30 then Regular
    else if flag == 0x31 then HardLink
    else if flag == 0x32 then SymbolicLink
    else if flag == 0x33 then CharacterDevice
    else if flag == 0x34 then BlockDevice
    else if flag == 0x35 then Directory
    else if flag == 0x36 then Fifo
    else if flag == 0x37 then Contiguous
    else Other(flag)
  }

  function TrimNul(bytes: seq<u8>): seq<u8>
  {
    if bytes == [] || bytes[|bytes| - 1] != 0 then bytes else TrimNul(bytes[..|bytes| - 1])
  }

  function Fits(bytes: seq<u8>, capacity: nat, scratch: Scratch): Result<seq<u8>, ArchiveError>
  {
    if |bytes| > capacity then Err(BufferTooSmall(scratch)) else Ok(bytes)
  }

  // ----- content

  /** The content of the current entry or extension is complete. */
  function FinishContent(p: Parser): Result<Outcome, ArchiveError>
  {
    var done := if p.padding == 0 then Nothing else p.current;
    match p.current
    case Normal =>
      if p.isOpen then Ok(Outcome(p.(isOpen := false, current := done), [EndEntry]))
          else Ok(Outcome(p.(current := done), []))
    case LongPath => Ok(Outcome(p.(path := TrimNul(p.path), longPath := true, current := done), []))
    case LongLink => Ok(Outcome(p.(link := TrimNul(p.link), longLink := true, current := done), []))
    case PaxHeader =>
      (match Validated(p.pax)
       case Err(e) => Err(InvalidPax(e))
       case Ok(_) => Ok(Outcome(p.(hasPax := true, current := done), [])))
    case Nothing => Err(InvalidState)
  }

  /** One byte of content: data, or more of an extension. */
  function TakeContent(p: Parser, byte: u8, capacity: Capacity): Result<Outcome, ArchiveError>
    requires p.remaining > 0
  {
    var taken :-
      match p.current
      case Normal => Ok(Outcome(p, [EntryData([byte])]))
      case LongPath => var path :- Fits(p.path + [byte], capacity.path, Path); Ok(Outcome(p.(path := path), []))
      case LongLink => var link :- Fits(p.link + [byte], capacity.link, Link); Ok(Outcome(p.(link := link), []))
      case PaxHeader => var pax :- Fits(p.pax + [byte], capacity.pax, Pax); Ok(Outcome(p.(pax := pax), []))
      case Nothing => Err(InvalidState);
    var next := taken.parser.(remaining := p.remaining - 1);
    if next.remaining > 0 then Ok(Outcome(next, taken.events))
    else
      var finished :- FinishContent(next);
      Ok(Outcome(finished.parser, taken.events + finished.events))
  }

  // ----- headers

  /** GNU long names and PAX headers announce content that describes the next entry. */
  function StartExtension(p: Parser, flag: u8, size: nat): Option<Result<Outcome, ArchiveError>>
  {
    if flag == 0x67 then Some(Err(UnsupportedGlobalPax))
    else if flag != 0x4c && flag != 0x4b && flag != 0x78 then None
    else
      var cleared :=
        if flag == 0x4c then p.(path := [], current := LongPath)
        else if flag == 0x4b then p.(link := [], current := LongLink)
        else p.(pax := [], current := PaxHeader);
      var begun := cleared.(remaining := size, padding := PaddingFor(size));
      Some(if size == 0 then FinishContent(begun) else Ok(Outcome(begun, [])))
  }

  /** The entry's path, by precedence: PAX, then GNU, then the header; normalized. */
  function EntryPath(p: Parser, header: seq<u8>, so: Overrides, capacity: Capacity): Result<seq<u8>, ArchiveError>
    requires |header| == BLOCK_SIZE
  {
    var raw :-
      if so.path.Some? then Fits(so.path.value, capacity.path, Path)
      else if p.longPath then Ok(p.path)
      else Fits(HeaderPath(header), capacity.path, Path);
    Normalized(TrimNul(raw))
  }

  /** Its link target; hard links are paths in the archive, symbolic links must stay inside it. */
  ghost function EntryLink(p: Parser, header: seq<u8>, so: Overrides, kind: EntryKind, path: seq<u8>,
      capacity: Capacity)
    : Result<seq<u8>, ArchiveError>
    requires |header| == BLOCK_SIZE
  {
    var raw :-
      if so.link.Some? then Fits(so.link.value, capacity.link, Link)
      else if p.longLink then Ok(p.link)
      else Fits(NulTerminated(header[157..257]), capacity.link, Link);
    var link := TrimNul(raw);
    if kind == HardLink && link != [] then Normalized(link)
    else if kind == SymbolicLink && link != [] && !(link[0] != SLASH && 0 !in link && StaysInside(path, link)) then
        Err(InvalidLink)
    else Ok(link)
  }

  function Number(header: seq<u8>, from: nat, to: nat): Result<nat, ArchiveError>
    requires |header| == BLOCK_SIZE && from <= to <= BLOCK_SIZE
  {
    match ParseNumber(header[from..to])
    case None => Err(InvalidMetadata)
    case Some(value) => Ok(value)
  }

  function EntryOf(header: seq<u8>, kind: EntryKind, size: nat, path: seq<u8>, link: seq<u8>,
      pax: seq<u8>): Result<Entry, ArchiveError>
    requires |header| == BLOCK_SIZE
  {
    var isDevice := kind == CharacterDevice || kind == BlockDevice;
    var major :- if isDevice then Number(header, 329, 337) else Ok(0);
    var minor :- if isDevice then Number(header, 337, 345) else Ok(0);
    var mode :- Number(header, 100, 108);
    var uid :- Number(header, 108, 116);
    var gid :- Number(header, 116, 124);
    var mtime :- Number(header, 136, 148);
    Ok(Entry(path, kind, size, mode, uid, gid, mtime,
             if kind == HardLink || kind == SymbolicLink then Some(link) else None,
             if isDevice then Some(major) else None, if isDevice then Some(minor) else None, pax))
  }

  function Describe(p: Parser): (r: Result<Overrides, ArchiveError>)
  {
    match OverridesFrom(if p.hasPax then p.pax else [], NO_OVERRIDES)
    case Err(e) => Err(InvalidPax(e))
    case Ok(so) => Ok(so)
  }

  /** An entry that is no extension: a whiteout, or a member with its metadata. */
  ghost function StartEntry(p: Parser, header: seq<u8>, size: nat, capacity: Capacity): Result<Outcome, ArchiveError>
    requires |header| == BLOCK_SIZE
  {
    var so :- Describe(p);
    var size :- if so.size.Some? then (match Decimal(so.size.value) case None => Err(InvalidSize) case Some(n) => Ok(n))
        else Ok(size);
    StartNamed(p, header, so, size, capacity)
  }

  /** The rest of it, when the PAX records and the size are known. */
  ghost function StartNamed(p: Parser, header: seq<u8>, so: Overrides, size: nat, capacity: Capacity): Result<Outcome,
      ArchiveError>
    requires |header| == BLOCK_SIZE
  {
    var path :- EntryPath(p, header, so, capacity);
    var kind := KindOf(header[156]);
    var link :- EntryLink(p, header, so, kind, path, capacity);
    var named :=
        p.(path := path, link := link, longPath := false, longLink := false, remaining := size,
        padding := PaddingFor(size));
    Announce(named, header, kind)
  }

  /** Tells the sink about an entry whose names are known. */
  function Announce(named: Parser, header: seq<u8>, kind: EntryKind): Result<Outcome, ArchiveError>
    requires |header| == BLOCK_SIZE
  {
    match WhiteoutOf(named.path)
    case Some((mark, about)) =>
      if kind != Regular || named.remaining != 0 then Err(InvalidWhiteout)
      else
        Ok(Outcome(named.(path := about, hasPax := false, pax := [], current := Nothing),
                   [if mark == Remove then WhiteoutAt(about) else OpaqueAt(about)]))
    case None =>
      var entry :- EntryOf(header, kind, named.remaining, named.path, named.link,
          if named.hasPax then named.pax else []);
      var begun := named.(current := Normal, isOpen := true, hasPax := false, pax := []);
      if named.remaining > 0 then Ok(Outcome(begun, [BeginEntry(entry)]))
      else
        var finished :- FinishContent(begun);
        Ok(Outcome(finished.parser, [BeginEntry(entry)] + finished.events))
  }

  ghost function TakeHeader(p: Parser, header: seq<u8>, capacity: Capacity): Result<Outcome, ArchiveError>
    requires |header| == BLOCK_SIZE
  {
    if header == Zeros(BLOCK_SIZE) then
      if p.current != Nothing then Err(InvalidState) else Ok(Outcome(p.(zeros := p.zeros + 1), []))
    else if p.zeros != 0 then Err(InvalidEndMarker)
    else if !ChecksumMatches(header) then Err(InvalidChecksum)
    else
      match ParseNumber(header[124..136])
      case None => Err(InvalidSize)
      case Some(size) =>
        match StartExtension(p, header[156], size)
        case Some(r) => r
        case None => StartEntry(p, header, size, capacity)
  }

  // ----- runs

  ghost function Step(p: Parser, byte: u8, capacity: Capacity): Result<Outcome, ArchiveError>
  {
    if p.zeros == 2 then Ok(Outcome(p, []))
    else if p.remaining > 0 then TakeContent(p, byte, capacity)
    else if p.padding > 0 then
      Ok(Outcome(p.(padding := p.padding - 1, current := if p.padding == 1 then Nothing else p.current), []))
    else if |p.header| + 1 != BLOCK_SIZE then Ok(Outcome(p.(header := p.header + [byte]), []))
    else TakeHeader(p.(header := []), p.header + [byte], capacity)
  }

  /** A run emits events until the input ends, or until an error. */
  datatype Trace = Trace(events: seq<Event>, end: Result<Parser, ArchiveError>)

  ghost function Run(p: Parser, bytes: seq<u8>, capacity: Capacity): Trace
    decreases |bytes|
  {
    if bytes == [] then Trace([], Ok(p))
    else
      match Step(p, bytes[0], capacity)
      case Err(e) => Trace([], Err(e))
      case Ok(next) =>
        var later := Run(next.parser, bytes[1..], capacity);
        Trace(next.events + later.events, later.end)
  }

  /** Going on after a run. */
  ghost function Then(first: Trace, bytes: seq<u8>, capacity: Capacity): Trace
  {
    match first.end
    case Err(_) => first
    case Ok(p) =>
      var later := Run(p, bytes, capacity);
      Trace(first.events + later.events, later.end)
  }

  /** Chunking cannot matter. */
  lemma {:induction false} RunConcat(p: Parser, a: seq<u8>, b: seq<u8>, capacity: Capacity)
    ensures Run(p, a + b, capacity) == Then(Run(p, a, capacity), b, capacity)
    decreases |a|
  {
    hide Step;
    if a == [] {
      assert a + b == b;
      assert [] + Run(p, b, capacity).events == Run(p, b, capacity).events;
    } else {
      assert (a + b)[0] == a[0] && (a + b)[1..] == a[1..] + b;
      if Step(p, a[0], capacity).Ok? {
        var next := Step(p, a[0], capacity).value;
        RunConcat(next.parser, a[1..], b, capacity);
        var middle := Run(next.parser, a[1..], capacity);
        if middle.end.Ok? {
          Associate(next.events, middle.events, Run(middle.end.value, b, capacity).events);
        }
      }
    }
  }

  // ----- the grammar of events

  /** Between entries, or inside one that is owed `left` bytes of data. */
  datatype Place = Between | Inside(left: nat)

  /** The grammar: entries with exactly their data and an end, or whiteouts, one after another. */
  function Follow(place: Place, event: Event): Option<Place>
  {
    match event
    case BeginEntry(entry) => if place == Between then Some(Inside(entry.size)) else None
    case EntryData(bytes) =>
      if place.Inside? && 0 < |bytes| <= place.left then Some(Inside(place.left - |bytes|)) else None
    case EndEntry => if place == Inside(0) then Some(Between) else None
    case WhiteoutAt(_) => if place == Between then Some(Between) else None
    case OpaqueAt(_) => if place == Between then Some(Between) else None
  }

  function FollowAll(place: Place, events: seq<Event>): Option<Place>
    decreases |events|
  {
    if events == [] then Some(place)
    else
      match Follow(place, events[0])
      case None => None
      case Some(next) => FollowAll(next, events[1..])
  }

  lemma {:induction false} FollowConcat(place: Place, a: seq<Event>, b: seq<Event>)
    requires FollowAll(place, a).Some?
    ensures FollowAll(place, a + b) == FollowAll(FollowAll(place, a).value, b)
    decreases |a|
  {
    if a == [] {
      assert a + b == b;
    } else {
      assert (a + b)[0] == a[0] && (a + b)[1..] == a[1..] + b;
      FollowConcat(Follow(place, a[0]).value, a[1..], b);
    }
  }

  /** Entry paths, the targets of hard links and the directories of opaque markers are in normal form; so is the
      path of a whiteout, but for a last component ".." or ".". */
  ghost predicate Clean(event: Event)
  {
    match event
    case BeginEntry(entry) =>
      && IsNormal(entry.path)
      && (entry.kind == HardLink ==>
            entry.linkTarget.Some? && (entry.linkTarget.value == [] || IsNormal(entry.linkTarget.value)))
    case WhiteoutAt(path) => WhiteoutPath(path)
    case OpaqueAt(path) => IsNormal(path)
    case _ => true
  }

  ghost predicate AllClean(events: seq<Event>)
  {
    forall k :: 0 <= k < |events| ==> Clean(events[k])
  }

  function PlaceOf(p: Parser): Place
  {
    if p.isOpen then Inside(p.remaining) else Between
  }

  /** What holds between any two bytes: an entry is open exactly while its data is owed, and
      nothing is current where a header is due. */
  ghost predicate Sane(p: Parser)
  {
    && |p.header| < BLOCK_SIZE && p.zeros <= 2
    && (p.isOpen <==> p.current == Normal && p.remaining > 0)
    && (p.current == Nothing <==> p.remaining == 0 && p.padding == 0)
    && (p.current != Nothing ==> p.header == [] && p.zeros == 0)
    && (p.zeros == 2 ==> p.header == [])
  }

  /** A step keeps that, speaks the grammar, and never finds itself in an invalid state. */
  ghost predicate GoodStep(place: Place, r: Result<Outcome, ArchiveError>)
  {
    match r
    case Err(e) => e != InvalidState
    case Ok(next) =>
      && Sane(next.parser) && AllClean(next.events)
      && FollowAll(place, next.events) == Some(PlaceOf(next.parser))
  }

  lemma FollowNone(place: Place)
    ensures FollowAll(place, []) == Some(place)
  {
  }

  lemma FollowOne(place: Place, event: Event)
    ensures FollowAll(place, [event]) == Follow(place, event)
  {
    assert [event][1..] == [];
  }

  /** Just before its content is finished, nothing is owed any more. */
  ghost predicate Finishing(p: Parser)
  {
    p.header == [] && p.zeros == 0 && p.remaining == 0 && p.current != Nothing && (p.isOpen <==> p.current == Normal)
  }

  lemma FinishIsGood(p: Parser)
    requires Finishing(p)
    ensures GoodStep(if p.isOpen then Inside(0) else Between, FinishContent(p))
    ensures FinishContent(p).Ok? ==> |FinishContent(p).value.events| <= 1
  {
    FollowOne(Inside(0), EndEntry);
    FollowNone(Between);
  }

  lemma ContentIsGood(p: Parser, byte: u8, capacity: Capacity)
    requires Sane(p) && p.remaining > 0
    ensures GoodStep(PlaceOf(p), TakeContent(p, byte, capacity))
  {
    hide FinishContent, FollowAll, AllClean;
    var events := if p.current == Normal then [EntryData([byte])] else [];
    FollowOne(Inside(p.remaining), EntryData([byte]));
    FollowNone(Between);
    OneClean(EntryData([byte]));
    if p.remaining == 1 && TakeContent(p, byte, capacity).Ok? {
      var next := ContentTaken(p, byte, capacity);
      FinishIsGood(next);
      var finished := FinishContent(next).value;
      FollowConcat(PlaceOf(p), events, finished.events);
      CleanConcat(events, finished.events);
    } else if p.remaining == 1 {
      ContentError(p, byte, capacity);
    }
  }

  /** The last byte of content, taken but not yet finished. */
  ghost function ContentTaken(p: Parser, byte: u8, capacity: Capacity): Parser
  {
    match p.current
    case LongPath => p.(path := p.path + [byte], remaining := 0)
    case LongLink => p.(link := p.link + [byte], remaining := 0)
    case PaxHeader => p.(pax := p.pax + [byte], remaining := 0)
    case _ => p.(remaining := 0)
  }

  lemma ContentError(p: Parser, byte: u8, capacity: Capacity)
    requires Sane(p) && p.remaining == 1 && TakeContent(p, byte, capacity).Err?
    ensures TakeContent(p, byte, capacity).error != InvalidState
  {
    FinishIsGood(ContentTaken(p, byte, capacity));
  }

  lemma OneClean(event: Event)
    requires Clean(event)
    ensures AllClean([event]) && AllClean([])
  {
  }

  lemma CleanConcat(a: seq<Event>, b: seq<Event>)
    requires AllClean(a) && AllClean(b)
    ensures AllClean(a + b)
  {
  }

  /** Where a header is due. */
  ghost predicate HeaderDue(p: Parser)
  {
    p.header == [] && p.remaining == 0 && p.padding == 0 && p.current == Nothing && !p.isOpen && p.zeros < 2
  }

  lemma ExtensionIsGood(p: Parser, flag: u8, size: nat)
    requires HeaderDue(p) && p.zeros == 0 && StartExtension(p, flag, size).Some?
    ensures GoodStep(Between, StartExtension(p, flag, size).value)
  {
    hide FinishContent;
    FollowNone(Between);
    if flag != 0x67 && size == 0 {
      var cleared :=
        if flag == 0x4c then p.(path := [], current := LongPath)
        else if flag == 0x4b then p.(link := [], current := LongLink)
        else p.(pax := [], current := PaxHeader);
      FinishIsGood(cleared.(remaining := 0, padding := PaddingFor(0)));
    }
  }

  lemma EntryIsGood(p: Parser, header: seq<u8>, size: nat, capacity: Capacity)
    requires HeaderDue(p) && p.zeros == 0 && |header| == BLOCK_SIZE
    ensures GoodStep(Between, StartEntry(p, header, size, capacity))
  {
    hide Describe, EntryPath, EntryLink, EntryOf, KindOf, WhiteoutOf, FinishContent, FollowAll, AllClean, Clean,
        Decimal;
    EntryErrors(p, header, size, capacity);
    var r := StartEntry(p, header, size, capacity);
    if r.Ok? {
      var so := Describe(p).value;
      var size := if so.size.Some? then Decimal(so.size.value).value else size;
      var path := EntryPath(p, header, so, capacity).value;
      var kind := KindOf(header[156]);
      var link := EntryLink(p, header, so, kind, path, capacity).value;
      var named :=
          p.(path := path, link := link, longPath := false, longLink := false, remaining := size,
          padding := PaddingFor(size));
      if WhiteoutOf(path).Some? {
        var (mark, about) := WhiteoutOf(path).value;
        var event := if mark == Remove then WhiteoutAt(about) else OpaqueAt(about);
        FollowOne(Between, event);
        PathIsNormal(p, header, so, capacity);
        WhiteoutIsClean(path);
        OneClean(event);
        assert PaddingFor(0) == 0;
      } else {
        var entry := EntryOf(header, kind, size, path, link, if p.hasPax then p.pax else []).value;
        var begun := named.(current := Normal, isOpen := true, hasPax := false, pax := []);
        EntryIsClean(p, header, so, kind, size, path, link, capacity);
        FollowOne(Between, BeginEntry(entry));
        OneClean(BeginEntry(entry));
        if size == 0 {
          FinishIsGood(begun);
          var finished := FinishContent(begun).value;
          FollowConcat(Between, [BeginEntry(entry)], finished.events);
          CleanConcat([BeginEntry(entry)], finished.events);
        }
      }
    }
  }

  lemma WhiteoutIsClean(path: seq<u8>)
    requires IsNormal(path) && WhiteoutOf(path).Some?
    ensures
      var (mark, about) := WhiteoutOf(path).value;
      Clean(if mark == Remove then WhiteoutAt(about) else OpaqueAt(about))
  {
    hide Normalized, WhiteoutOf, WhiteoutPath;
    WhiteoutKeepsDirectories(path);
  }

  /** None of the ways in which an entry can be rejected is an invalid state. */
  lemma EntryErrors(p: Parser, header: seq<u8>, size: nat, capacity: Capacity)
    requires HeaderDue(p) && p.zeros == 0 && |header| == BLOCK_SIZE
    ensures StartEntry(p, header, size, capacity).Err? ==> StartEntry(p, header, size, capacity).error != InvalidState
  {
    hide Normalized, StaysInside, HeaderPath, NulTerminated, ParseNumber, WhiteoutOf, OverridesFrom, TrimNul, KindOf;
    if StartEntry(p, header, size, capacity) == Err(InvalidState) {
      PathErrors(p, header, Describe(p).value, capacity);
      assert false;
    }
  }

  lemma PathErrors(p: Parser, header: seq<u8>, so: Overrides, capacity: Capacity)
    requires |header| == BLOCK_SIZE
    ensures EntryPath(p, header, so, capacity).Err? ==> EntryPath(p, header, so, capacity).error != InvalidState
  {
  }

  lemma EntryIsClean(p: Parser, header: seq<u8>, so: Overrides, kind: EntryKind, size: nat, path: seq<u8>,
      link: seq<u8>, capacity: Capacity)
    requires |header| == BLOCK_SIZE && EntryPath(p, header, so, capacity) == Ok(path)
    requires EntryLink(p, header, so, kind, path, capacity) == Ok(link)
    ensures
      var entry := EntryOf(header, kind, size, path, link, if p.hasPax then p.pax else []);
      entry.Ok? ==> Clean(BeginEntry(entry.value)) && entry.value.size == size
  {
    hide Normalized, HeaderPath, TrimNul, StaysInside, ParseNumber, NulTerminated;
    PathIsNormal(p, header, so, capacity);
    if kind == HardLink {
      LinkIsNormal(p, header, so, kind, path, capacity);
    }
  }

  lemma PathIsNormal(p: Parser, header: seq<u8>, so: Overrides, capacity: Capacity)
    requires |header| == BLOCK_SIZE && EntryPath(p, header, so, capacity).Ok?
    ensures IsNormal(EntryPath(p, header, so, capacity).value)
  {
    hide Normalized, HeaderPath, TrimNul;
    var raw := if so.path.Some? then so.path.value else if p.longPath then p.path else HeaderPath(header);
    NormalizedIsNormal(TrimNul(raw));
  }

  lemma LinkIsNormal(p: Parser, header: seq<u8>, so: Overrides, kind: EntryKind, path: seq<u8>, capacity: Capacity)
    requires |header| == BLOCK_SIZE && EntryLink(p, header, so, kind, path, capacity).Ok? && kind == HardLink
    ensures
      var link := EntryLink(p, header, so, kind, path, capacity).value;
      link == [] || IsNormal(link)
  {
    hide Normalized, NulTerminated, TrimNul, StaysInside;
    var raw := if so.link.Some? then so.link.value else if p.longLink then p.link else NulTerminated(header[157..257]);
    if TrimNul(raw) != [] {
      NormalizedIsNormal(TrimNul(raw));
    }
  }

  lemma HeaderIsGood(p: Parser, header: seq<u8>, capacity: Capacity)
    requires HeaderDue(p) && |header| == BLOCK_SIZE
    ensures GoodStep(Between, TakeHeader(p, header, capacity))
  {
    hide StartExtension, StartEntry, ChecksumMatches, ParseNumber, FollowAll;
    FollowNone(Between);
    if ParseNumber(header[124..136]).Some? && p.zeros == 0 {
      var size := ParseNumber(header[124..136]).value;
      if StartExtension(p, header[156], size).Some? {
        ExtensionIsGood(p, header[156], size);
      } else {
        EntryIsGood(p, header, size, capacity);
      }
    }
  }

  lemma StepIsGood(p: Parser, byte: u8, capacity: Capacity)
    requires Sane(p)
    ensures GoodStep(PlaceOf(p), Step(p, byte, capacity))
  {
    hide TakeContent, TakeHeader, FollowAll;
    FollowNone(PlaceOf(p));
    if p.zeros < 2 && p.remaining > 0 {
      ContentIsGood(p, byte, capacity);
    } else if p.zeros < 2 && p.padding == 0 && |p.header| + 1 == BLOCK_SIZE {
      HeaderIsGood(p.(header := []), p.header + [byte], capacity);
    }
  }

  /** Every run from a sane state: its events follow the grammar and lead to where its end says they
      do, all paths are clean, and it never stops with `InvalidState`. */
  lemma {:induction false} RunFollowsGrammar(p: Parser, bytes: seq<u8>, capacity: Capacity)
    requires Sane(p)
    ensures
      var trace := Run(p, bytes, capacity);
      && AllClean(trace.events) && FollowAll(PlaceOf(p), trace.events).Some?
      && match trace.end
         case Err(e) => e != InvalidState
         case Ok(q) => Sane(q) && FollowAll(PlaceOf(p), trace.events) == Some(PlaceOf(q))
    decreases |bytes|
  {
    hide Step, FollowAll, AllClean, Clean, Sane;
    FollowNone(PlaceOf(p));
    NoneClean();
    if bytes != [] {
      StepIsGood(p, bytes[0], capacity);
      if Step(p, bytes[0], capacity).Ok? {
        var next := Step(p, bytes[0], capacity).value;
        RunFollowsGrammar(next.parser, bytes[1..], capacity);
        var later := Run(next.parser, bytes[1..], capacity);
        FollowConcat(PlaceOf(p), next.events, later.events);
        CleanConcat(next.events, later.events);
      }
    }
  }

  lemma NoneClean()
    ensures AllClean([])
  {
  }

  // ----- the end of the archive

  datatype FinishError = UnexpectedEof | DanglingExtension

  function FinishOf(p: Parser): Result<(), FinishError>
  {
    if p.zeros != 2 || p.header != [] || p.remaining != 0 || p.padding != 0 || p.isOpen || p.current != Nothing then
        Err(UnexpectedEof)
    else if p.longPath || p.longLink || p.hasPax then Err(DanglingExtension)
    else Ok(())
  }

  /** An archive that is accepted is a sequence of complete entries and whiteouts. */
  lemma AcceptedArchive(bytes: seq<u8>, capacity: Capacity)
    ensures
      var trace := Run(START, bytes, capacity);
      trace.end.Ok? && FinishOf(trace.end.value).Ok? ==>
        FollowAll(Between, trace.events) == Some(Between) && AllClean(trace.events)
  {
    hide Run, FollowAll, AllClean;
    RunFollowsGrammar(START, bytes, capacity);
  }
}
