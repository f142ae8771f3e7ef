/** The buffered layer parser (src/tar.rs lines 503-794): it works in its
    caller's path, link and PAX buffers, and takes its input in fragments. Its
    events are those of the byte-by-byte machine, up to how data is cut. */
module TarParser {
  import opened Numbers
  import opened Results
  import opened Concatenation
  import opened AsciiText
  import opened TarErrors
  import opened TarHeader
  import opened TarPath
  import opened TarPax
  import opened TarArchive
  import TarExtractor

  // ----- events up to how data is cut

  function Bytewise(bytes: seq<u8>): seq<Event>
  {
    if bytes == [] then [] else Bytewise(bytes[..|bytes| - 1]) + [EntryData([bytes[|bytes| - 1]])]
  }

  /** Every piece of data cut into single bytes. */
  function Explode(events: seq<Event>): seq<Event>
  {
    if events == [] then []
    else
      Explode(events[..|events| - 1])
        + if events[|events| - 1].EntryData? then Bytewise(events[|events| - 1].bytes) else [events[|events| - 1]]
  }

  lemma {:induction false} BytewiseConcat(a: seq<u8>, b: seq<u8>)
    ensures Bytewise(a + b) == Bytewise(a) + Bytewise(b)
  {
    if b == [] {
      assert a + b == a;
    } else {
      assert (a + b)[..|a + b| - 1] == a + b[..|b| - 1];
      BytewiseConcat(a, b[..|b| - 1]);
    }
  }

  lemma {:induction false} ExplodeConcat(a: seq<Event>, b: seq<Event>)
    ensures Explode(a + b) == Explode(a) + Explode(b)
  {
    if b == [] {
      assert a + b == a;
    } else {
      WithoutLast(a, b);
      ExplodeConcat(a, b[..|b| - 1]);
    }
  }

  lemma WithoutLast(a: seq<Event>, b: seq<Event>)
    requires b != []
    ensures (a + b)[..|a + b| - 1] == a + b[..|b| - 1]
  {
  }

  lemma ExplodeOne(event: Event)
    ensures Explode([event]) == if event.EntryData? then Bytewise(event.bytes) else [event]
    ensures Explode([]) == []
  {
    assert [event][..0] == [];
    assert Explode([event]) == Explode([]) + if event.EntryData? then Bytewise(event.bytes) else [event];
  }

  /** Events without data are as they are. */
  predicate NoData(events: seq<Event>)
  {
    forall k :: 0 <= k < |events| ==> !events[k].EntryData?
  }

  lemma {:induction false} ExplodeNoData(events: seq<Event>)
    requires NoData(events)
    ensures Explode(events) == events
  {
    if events != [] {
      ExplodeNoData(events[..|events| - 1]);
      assert events == events[..|events| - 1] + [events[|events| - 1]];
    }
  }

  // ----- fragments of content

  /** What a fragment of content does, at once. */
  function TakeChunk(p: Parser, bytes: seq<u8>, capacity: Capacity): Result<Outcome, ArchiveError>
    requires |bytes| <= p.remaining
  {
    var taken :-
      match p.current
      case Normal => Ok(Outcome(p, [EntryData(bytes)]))
      case LongPath => var path :- Fits(p.path + bytes, capacity.path, Path); Ok(Outcome(p.(path := path), []))
      case LongLink => var link :- Fits(p.link + bytes, capacity.link, Link); Ok(Outcome(p.(link := link), []))
      case PaxHeader => var pax :- Fits(p.pax + bytes, capacity.pax, Pax); Ok(Outcome(p.(pax := pax), []))
      case Nothing => Err(InvalidState);
    var next := taken.parser.(remaining := p.remaining - |bytes|);
    if next.remaining > 0 then Ok(Outcome(next, taken.events))
    else
      var finished :- FinishContent(next);
      Ok(Outcome(finished.parser, taken.events + finished.events))
  }

  /** The trace of a fragment: errors emit nothing. */
  function TraceOf(r: Result<Outcome, ArchiveError>): Trace
  {
    match r
    case Err(e) => Trace([], Err(e))
    case Ok(o) => Trace(Explode(o.events), Ok(o.parser))
  }

  lemma FinishHasNoData(p: Parser)
    ensures FinishContent(p).Ok? ==> NoData(FinishContent(p).value.events)
    ensures p.current == Normal ==> FinishContent(p).Ok?
  {
  }

  /** One byte is a fragment. */
  lemma ByteIsChunk(p: Parser, byte: u8, capacity: Capacity)
    requires Sane(p) && p.remaining > 0
    ensures
      match TakeContent(p, byte, capacity)
      case Err(e) => TraceOf(TakeChunk(p, [byte], capacity)) == Trace([], Err(e))
      case Ok(o) => TraceOf(TakeChunk(p, [byte], capacity)) == Trace(o.events, Ok(o.parser))
  {
    hide FinishContent, Explode;
    ExplodeOne(EntryData([byte]));
    assert Bytewise([byte]) == [EntryData([byte])] by {
      assert [byte][..0] == [];
    }
    var next := ContentTaken(p, byte, capacity);
    FinishHasNoData(next);
    if FinishContent(next).Ok? {
      var events := FinishContent(next).value.events;
      ExplodeNoData(events);
      ExplodeConcat([EntryData([byte])], events);
      assert [] + events == events;
    }
  }

  /** A fragment of content behaves like its bytes, one after another. */
  lemma {:induction false} RunChunk(p: Parser, bytes: seq<u8>, capacity: Capacity)
    requires Sane(p) && 0 < |bytes| <= p.remaining
    ensures Run(p, bytes, capacity) == TraceOf(TakeChunk(p, bytes, capacity))
    decreases |bytes|
  {
    hide TakeContent, TakeChunk, Explode;
    ByteIsChunk(p, bytes[0], capacity);
    assert Step(p, bytes[0], capacity) == TakeContent(p, bytes[0], capacity);
    if |bytes| == 1 {
      assert bytes == [bytes[0]] && bytes[1..] == [];
      AloneRun(p, bytes, capacity);
    } else {
      StepIsGood(p, bytes[0], capacity);
      ChunkSplits(p, bytes, capacity);
      var first := TakeChunk(p, bytes[..1], capacity);
      assert bytes[..1] == [bytes[0]];
      if first.Ok? {
        RunChunk(first.value.parser, bytes[1..], capacity);
      }
    }
  }

  lemma AloneRun(p: Parser, bytes: seq<u8>, capacity: Capacity)
    requires |bytes| == 1
    ensures Run(p, bytes, capacity) ==
      match Step(p, bytes[0], capacity)
      case Err(e) => Trace([], Err(e))
      case Ok(next) => Trace(next.events, Ok(next.parser))
  {
    hide Step;
    if Step(p, bytes[0], capacity).Ok? {
      var next := Step(p, bytes[0], capacity).value;
      assert bytes[1..] == [];
      assert Run(next.parser, [], capacity) == Trace([], Ok(next.parser));
      assert next.events + [] == next.events;
    }
  }

  /** Cutting a fragment behind its first byte. */
  lemma ChunkSplits(p: Parser, bytes: seq<u8>, capacity: Capacity)
    requires Sane(p) && 1 < |bytes| <= p.remaining
    ensures
      var first := TakeChunk(p, bytes[..1], capacity);
      match first
      case Err(e) => TakeChunk(p, bytes, capacity) == Err(e)
      case Ok(o) =>
        && Sane(o.parser) && o.parser.remaining == p.remaining - 1
        && var later := TraceOf(TakeChunk(o.parser, bytes[1..], capacity));
           TraceOf(TakeChunk(p, bytes, capacity)) == Trace(Explode(o.events) + later.events, later.end)
  {
    hide FinishContent, Explode, Bytewise, TakeChunk, ChunkTaken, Overflow;
    var a, b := bytes[..1], bytes[1..];
    assert bytes == a + b;
    ChunkIs(p, a, capacity);
    ChunkIs(p, bytes, capacity);
    var middle := ChunkTaken(p, a);
    TakenTwice(p, a, b);
    TakenIsSane(p, a);
    TakenIsSane(p, bytes);
    OverflowTwice(p, a, b, capacity);
    ChunkIs(middle, b, capacity);
    BytewiseConcat(a, b);
    ExplodeOne(EntryData(a));
    ExplodeOne(EntryData(b));
    ExplodeOne(EntryData(bytes));
    var next := ChunkTaken(p, bytes);
    FinishHasNoData(next);
    if FinishContent(next).Ok? {
      var events := FinishContent(next).value.events;
      ExplodeConcat([EntryData(bytes)], events);
      ExplodeConcat([EntryData(b)], events);
      Associate(Bytewise(a), Bytewise(b), Explode(events));
      NothingFirst(events);
      NothingFirst(Explode(events));
    }
    NothingFirst([]);
  }

  /** Storing a fragment in two parts. */
  lemma TakenTwice(p: Parser, a: seq<u8>, b: seq<u8>)
    requires |a| + |b| <= p.remaining
    ensures ChunkTaken(p, a).remaining == p.remaining - |a|
    ensures ChunkTaken(ChunkTaken(p, a), b) == ChunkTaken(p, a + b)
  {
    match p.current
    case LongPath => Regroup(p.path, a, b);
    case LongLink => Regroup(p.link, a, b);
    case PaxHeader => Regroup(p.pax, a, b);
    case _ =>
  }

  lemma TakenIsSane(p: Parser, bytes: seq<u8>)
    requires |bytes| <= p.remaining
    ensures ChunkTaken(p, bytes).current == p.current && ChunkTaken(p, bytes).remaining == p.remaining - |bytes|
    ensures Sane(p) && |bytes| < p.remaining ==> Sane(ChunkTaken(p, bytes))
  {
  }

  lemma OverflowTwice(p: Parser, a: seq<u8>, b: seq<u8>, capacity: Capacity)
    requires |a + b| <= p.remaining
    ensures Overflow(p, a + b, capacity) ==
      if Overflow(p, a, capacity).Some? then Overflow(p, a, capacity) else Overflow(ChunkTaken(p, a), b, capacity)
    ensures p.current == Normal ==> Overflow(p, a + b, capacity) == None
  {
  }

  lemma Regroup(front: seq<u8>, a: seq<u8>, b: seq<u8>)
    ensures front + (a + b) == (front + a) + b
  {
  }

  lemma NothingFirst(events: seq<Event>)
    ensures [] + events == events
  {
  }

  /** The parser when a fragment has been stored. */
  ghost function ChunkTaken(p: Parser, bytes: seq<u8>): Parser
    requires |bytes| <= p.remaining
  {
    var next := p.(remaining := p.remaining - |bytes|);
    match p.current
    case LongPath => next.(path := p.path + bytes)
    case LongLink => next.(link := p.link + bytes)
    case PaxHeader => next.(pax := p.pax + bytes)
    case _ => next
  }

  ghost function Overflow(p: Parser, bytes: seq<u8>, capacity: Capacity): Option<ArchiveError>
  {
    match p.current
    case LongPath => if |p.path| + |bytes| > capacity.path then Some(BufferTooSmall(Path)) else None
    case LongLink => if |p.link| + |bytes| > capacity.link then Some(BufferTooSmall(Link)) else None
    case PaxHeader => if |p.pax| + |bytes| > capacity.pax then Some(BufferTooSmall(Pax)) else None
    case Normal => None
    case Nothing => Some(InvalidState)
  }

  lemma ChunkIs(p: Parser, bytes: seq<u8>, capacity: Capacity)
    requires |bytes| <= p.remaining
    ensures TakeChunk(p, bytes, capacity) ==
      var overflow := Overflow(p, bytes, capacity);
      var next := ChunkTaken(p, bytes);
      var events := if p.current == Normal then [EntryData(bytes)] else [];
      if overflow.Some? then Err(overflow.value)
      else if next.remaining > 0 then Ok(Outcome(next, events))
      else
        var finished :- FinishContent(next);
        Ok(Outcome(finished.parser, events + finished.events))
  {
    hide FinishContent;
  }

  lemma {:induction false} RunPadding(p: Parser, bytes: seq<u8>, capacity: Capacity)
    requires p.zeros < 2 && p.remaining == 0 && 0 < |bytes| <= p.padding
    ensures Run(p, bytes, capacity) ==
      Trace([], Ok(p.(padding := p.padding - |bytes|, current := if |bytes| == p.padding then Nothing else p.current)))
    decreases |bytes|
  {
    if |bytes| == 1 {
      AloneRun(p, bytes, capacity);
    } else {
      RunPadding(Step(p, bytes[0], capacity).value.parser, bytes[1..], capacity);
    }
  }

  lemma {:induction false} RunHeader(p: Parser, bytes: seq<u8>, capacity: Capacity)
    requires p.zeros < 2 && p.remaining == 0 && p.padding == 0 && 0 < |bytes| && |p.header| + |bytes| <= BLOCK_SIZE
    ensures Run(p, bytes, capacity) ==
      if |p.header| + |bytes| < BLOCK_SIZE then Trace([], Ok(p.(header := p.header + bytes)))
      else
        match TakeHeader(p.(header := []), p.header + bytes, capacity)
        case Err(e) => Trace([], Err(e))
        case Ok(o) => Trace(o.events, Ok(o.parser))
    decreases |bytes|
  {
    hide TakeHeader;
    if |bytes| == 1 {
      assert bytes == [bytes[0]];
      AloneRun(p, bytes, capacity);
    } else {
      assert (p.header + [bytes[0]]) + bytes[1..] == p.header + bytes;
      RunHeader(p.(header := p.header + [bytes[0]]), bytes[1..], capacity);
    }
  }

  lemma {:induction false} RunOver(p: Parser, bytes: seq<u8>, capacity: Capacity)
    requires p.zeros == 2
    ensures Run(p, bytes, capacity) == Trace([], Ok(p))
    decreases |bytes|
  {
    if bytes != [] {
      RunOver(p, bytes[1..], capacity);
    }
  }

  // ----- buffers

  method CopyInto(destination: array<u8>, at: nat, bytes: seq<u8>)
    requires at + |bytes| <= destination.Length
    modifies destination
    ensures destination[..at + |bytes|] == old(destination[..at]) + bytes
  {
    for i := 0 to |bytes|
      invariant forall k :: 0 <= k < at ==> destination[k] == old(destination[k])
      invariant forall k :: at <= k < at + i ==> destination[k] == bytes[k - at]
    {
      destination[at + i] := bytes[i];
    }
  }

  method TrimmedLength(bytes: array<u8>, length: nat) returns (n: nat)
    requires length <= bytes.Length
    ensures n <= length && bytes[..n] == TrimNul(bytes[..length])
  {
    n := length;
    while n != 0 && bytes[n - 1] == 0
      invariant n <= length && TrimNul(bytes[..n]) == TrimNul(bytes[..length])
    {
      assert bytes[..n][..n - 1] == bytes[..n - 1];
      n := n - 1;
    }
  }

  // ----- the parser

  class Archive {
    const header: array<u8>
    const path: array<u8>
    const link: array<u8>
    const pax: array<u8>
    var headerLen: nat
    var entryRemaining: nat
    var paddingRemaining: nat
    var current: Current
    var entryOpen: bool
    var zeroBlocks: nat
    var pathLen: nat
    var linkLen: nat
    var paxLen: nat
    var pendingLongPath: bool
    var pendingLongLink: bool
    var pendingPax: bool

    ghost predicate Shaped()
      reads this
    {
      && header.Length == BLOCK_SIZE && headerLen <= BLOCK_SIZE
      && pathLen <= path.Length && linkLen <= link.Length && paxLen <= pax.Length
      && header != path && header != link && header != pax && path != link && path != pax && link != pax
    }

    ghost function View(): Parser
      reads this, header, path, link, pax
      requires Shaped()
    {
      Parser(header[..headerLen], entryRemaining, paddingRemaining, current, entryOpen, zeroBlocks,
             path[..pathLen], link[..linkLen], pax[..paxLen], pendingLongPath, pendingLongLink, pendingPax)
    }

    ghost function Sizes(): Capacity
    {
      Capacity(path.Length, link.Length, pax.Length)
    }

    ghost predicate Valid()
      reads this, header, path, link, pax
      ensures Valid() ==> Shaped() && zeroBlocks <= 2 && headerLen < BLOCK_SIZE
    {
      Shaped() && Sane(View())
    }

    constructor (path: array<u8>, link: array<u8>, pax: array<u8>)
      requires path != link && path != pax && link != pax
      ensures Valid() && View() == START && Sizes() == Capacity(path.Length, link.Length, pax.Length)
    {
      this.path, this.link, this.pax := path, link, pax;
      header := new u8[BLOCK_SIZE](_ => 0);
      headerLen, entryRemaining, paddingRemaining, zeroBlocks := 0, 0, 0, 0;
      current, entryOpen := Nothing, false;
      pathLen, linkLen, paxLen := 0, 0, 0;
      pendingLongPath, pendingLongLink, pendingPax := false, false, false;
    }

    // ----- content

    method CompleteContent() returns (r: Result<seq<Event>, ArchiveError>)
      requires Shaped()
      modifies this
      ensures Shaped()
      ensures
        match FinishContent(old(View()))
        case Err(e) => r == Err(e)
        case Ok(o) => r == Ok(o.events) && View() == o.parser
    {
      hide Validated, TrimNul;
      var events: seq<Event> := [];
      match current {
        case Normal =>
          if entryOpen {
            events := [EndEntry];
            entryOpen := false;
          }
        case LongPath =>
          pathLen := TrimmedLength(path, pathLen);
          pendingLongPath := true;
        case LongLink =>
          linkLen := TrimmedLength(link, linkLen);
          pendingLongLink := true;
        case PaxHeader =>
          var validated := ValidatePax(pax[..paxLen]);
          if validated.Err? {
            return Err(InvalidPax(validated.error));
          }
          pendingPax := true;
        case Nothing =>
          return Err(InvalidState);
      }
      if paddingRemaining == 0 {
        current := Nothing;
      }
      r := Ok(events);
    }

    /** Data for the sink, or more of an extension. */
    method StoreContent(bytes: seq<u8>) returns (r: Result<seq<Event>, ArchiveError>)
      requires Shaped() && 0 < |bytes| <= entryRemaining
      modifies this, path, link, pax
      ensures Shaped()
      ensures
        match TakeChunk(old(View()), bytes, Sizes())
        case Err(e) => r == Err(e)
        case Ok(o) => r == Ok(o.events) && View() == o.parser
    {
      hide FinishContent, TakeChunk;
      ghost var before := View();
      ChunkIs(before, bytes, Sizes());
      var events: seq<Event> := [];
      match current {
        case Normal =>
          events := [EntryData(bytes)];
        case LongPath =>
          if pathLen + |bytes| > path.Length {
            return Err(BufferTooSmall(Path));
          }
          CopyInto(path, pathLen, bytes);
          pathLen := pathLen + |bytes|;
        case LongLink =>
          if linkLen + |bytes| > link.Length {
            return Err(BufferTooSmall(Link));
          }
          CopyInto(link, linkLen, bytes);
          linkLen := linkLen + |bytes|;
        case PaxHeader =>
          if paxLen + |bytes| > pax.Length {
            return Err(BufferTooSmall(Pax));
          }
          CopyInto(pax, paxLen, bytes);
          paxLen := paxLen + |bytes|;
        case Nothing =>
          return Err(InvalidState);
      }
      entryRemaining := entryRemaining - |bytes|;
      assert View() == ChunkTaken(before, bytes);
      if entryRemaining == 0 {
        var more :- CompleteContent();
        events := events + more;
      }
      r := Ok(events);
    }

    // ----- headers

    /** Announces content that describes the next entry; `None` if the header does not. */
    method OpenExtension(flag: u8, size: nat) returns (r: Option<Result<seq<Event>, ArchiveError>>)
      requires Shaped()
      modifies this
      ensures Shaped()
      ensures
        match StartExtension(old(View()), flag, size)
        case None => r == None && View() == old(View())
        case Some(Err(e)) => r == Some(Err(e))
        case Some(Ok(o)) => r == Some(Ok(o.events)) && View() == o.parser
    {
      hide FinishContent;
      if flag == 0x67 {
        return Some(Err(UnsupportedGlobalPax));
      }
      if flag == 0x4c {
        pathLen, current := 0, LongPath;
        assert path[..0] == [];
      } else if flag == 0x4b {
        linkLen, current := 0, LongLink;
        assert link[..0] == [];
      } else if flag == 0x78 {
        paxLen, current := 0, PaxHeader;
        assert pax[..0] == [];
      } else {
        return None;
      }
      entryRemaining, paddingRemaining := size, PaddingFor(size);
      if size == 0 {
        var finished := CompleteContent();
        return Some(finished);
      }
      r := Some(Ok([]));
    }

    /** The entry's path, normalized in place. */
    method ResolvePath(so: Overrides) returns (r: Result<(), ArchiveError>)
      requires Shaped()
      modifies `pathLen, path
      ensures Shaped()
      ensures
        match EntryPath(old(View()), old(header[..]), so, Sizes())
        case Err(e) => r == Err(e)
        case Ok(value) => r == Ok(()) && path[..pathLen] == value
    {
      hide Normalized, HeaderPath, TrimNul;
      if so.path.Some? {
        if |so.path.value| > path.Length {
          return Err(BufferTooSmall(Path));
        }
        CopyInto(path, 0, so.path.value);
        pathLen := |so.path.value|;
        assert path[..pathLen] == so.path.value;
      } else if !pendingLongPath {
        var name := HeaderPath(header[..]);
        if |name| > path.Length {
          return Err(BufferTooSmall(Path));
        }
        CopyInto(path, 0, name);
        pathLen := |name|;
        assert path[..pathLen] == name;
      }
      pathLen := TrimmedLength(path, pathLen);
      pathLen :- NormalizePath(path, pathLen);
      r := Ok(());
    }

    /** Its link target. */
    method ResolveLink(so: Overrides, kind: EntryKind) returns (r: Result<(), ArchiveError>)
      requires Shaped()
      modifies `linkLen, link
      ensures Shaped()
      ensures
        match EntryLink(old(View()), old(header[..]), so, kind, old(path[..pathLen]), Sizes())
        case Err(e) => r == Err(e)
        case Ok(value) => r == Ok(()) && link[..linkLen] == value
    {
      hide Normalized, NulTerminated, TrimNul, StaysInside;
      if so.link.Some? {
        if |so.link.value| > link.Length {
          return Err(BufferTooSmall(Link));
        }
        CopyInto(link, 0, so.link.value);
        linkLen := |so.link.value|;
        assert link[..linkLen] == so.link.value;
      } else if !pendingLongLink {
        assert header[..][157..257] == header[157..257];
        var target := NulTerminated(header[157..257]);
        if |target| > link.Length {
          return Err(BufferTooSmall(Link));
        }
        CopyInto(link, 0, target);
        linkLen := |target|;
        assert link[..linkLen] == target;
      }
      linkLen := TrimmedLength(link, linkLen);
      if kind == HardLink && linkLen != 0 {
        linkLen :- NormalizePath(link, linkLen);
      } else if kind == SymbolicLink && linkLen != 0 {
        var _ :- ValidateSymbolicLink(path[..pathLen], link[..linkLen]);
      }
      r := Ok(());
    }

    method ResolveNames(so: Overrides, kind: EntryKind) returns (r: Result<(), ArchiveError>)
      requires Shaped()
      modifies `pathLen, `linkLen, path, link
      ensures Shaped()
      ensures
        match EntryPath(old(View()), old(header[..]), so, Sizes())
        case Err(e) => r == Err(e)
        case Ok(name) =>
          match EntryLink(old(View()), old(header[..]), so, kind, name, Sizes())
          case Err(e) => r == Err(e)
          case Ok(target) => r == Ok(()) && path[..pathLen] == name && link[..linkLen] == target
    {
      hide EntryPath, EntryLink;
      ghost var before := View();
      var _ :- ResolvePath(so);
      LinkIgnoresPath(before, header[..], so, kind, path[..pathLen], path[..pathLen], Sizes());
      r := ResolveLink(so, kind);
    }

    method ReadNumber(from: nat, to: nat) returns (r: Result<nat, ArchiveError>)
      requires Shaped() && from <= to <= BLOCK_SIZE
      ensures r == Number(header[..], from, to)
    {
      hide ParseNumber;
      assert header[..][from..to] == header[from..to];
      var value := ParseNumberField(header[from..to]);
      r := if value.None? then Err(InvalidMetadata) else Ok(value.value);
    }

    method ReadEntry(kind: EntryKind, size: nat, link: seq<u8>, pax: seq<u8>) returns (r: Result<Entry, ArchiveError>)
      requires Shaped()
      ensures r == EntryOf(header[..], kind, size, path[..pathLen], link, pax)
    {
      hide ParseNumber, Number;
      var isDevice := kind == CharacterDevice || kind == BlockDevice;
      var major, minor := 0, 0;
      if isDevice {
        major :- ReadNumber(329, 337);
        minor :- ReadNumber(337, 345);
      }
      var mode :- ReadNumber(100, 108);
      var uid :- ReadNumber(108, 116);
      var gid :- ReadNumber(116, 124);
      var mtime :- ReadNumber(136, 148);
      r := Ok(Entry(path[..pathLen], kind, size, mode, uid, gid, mtime,
                    if kind == HardLink || kind == SymbolicLink then Some(link) else None,
                    if isDevice then Some(major) else None, if isDevice then Some(minor) else None, pax));
    }

    /** A member begins with its metadata. */
    method BeginMember(kind: EntryKind, size: nat) returns (r: Result<seq<Event>, ArchiveError>)
      requires Shaped() && entryRemaining == size && WhiteoutOf(path[..pathLen]).None?
      modifies this, path
      ensures Shaped()
      ensures
        match Announce(old(View()), old(header[..]), kind)
        case Err(e) => r == Err(e)
        case Ok(o) => r == Ok(o.events) && View() == o.parser
    {
      hide EntryOf, WhiteoutOf, FinishContent;
      var entry :- ReadEntry(kind, size, link[..linkLen], if pendingPax then pax[..paxLen] else []);
      current, entryOpen, pendingPax, paxLen := Normal, true, false, 0;
      assert pax[..0] == [];
      if size == 0 {
        var finished :- CompleteContent();
        return Ok([BeginEntry(entry)] + finished);
      }
      r := Ok([BeginEntry(entry)]);
    }

    /** Whiteouts are events of their own; everything else begins an entry. */
    method AnnounceEntry(kind: EntryKind, size: nat) returns (r: Result<seq<Event>, ArchiveError>)
      requires Shaped() && entryRemaining == size
      modifies this, path
      ensures Shaped()
      ensures
        match Announce(old(View()), old(header[..]), kind)
        case Err(e) => r == Err(e)
        case Ok(o) => r == Ok(o.events) && View() == o.parser
    {
      hide EntryOf, WhiteoutOf, FinishContent;
      var mark: Option<Mark>;
      mark, pathLen := TakeWhiteout(path, pathLen);
      if mark.Some? {
        if kind != Regular || size != 0 {
          return Err(InvalidWhiteout);
        }
        pendingPax, paxLen, current := false, 0, Nothing;
        assert pax[..0] == [];
        return Ok([if mark.value == Remove then WhiteoutAt(path[..pathLen]) else OpaqueAt(path[..pathLen])]);
      }
      r := BeginMember(kind, size);
    }

    /** A header that is no extension. */
    method OpenEntry(headerSize: nat) returns (r: Result<seq<Event>, ArchiveError>)
      requires Shaped()
      modifies this, path, link
      ensures Shaped()
      ensures
        match StartEntry(old(View()), old(header[..]), headerSize, Sizes())
        case Err(e) => r == Err(e)
        case Ok(o) => r == Ok(o.events) && View() == o.parser
    {
      hide OverridesFrom, StartNamed, Decimal;
      var overrides := PaxOverrides(if pendingPax then pax[..paxLen] else []);
      if overrides.Err? {
        return Err(InvalidPax(overrides.error));
      }
      var so := overrides.value;
      var size := headerSize;
      if so.size.Some? {
        var decimal := Decimal(so.size.value);
        if decimal.None? {
          return Err(InvalidSize);
        }
        size := decimal.value;
      }
      r := NameEntry(so, size);
    }

    /** The rest of it, when the PAX records and the size are known. */
    method NameEntry(so: Overrides, size: nat) returns (r: Result<seq<Event>, ArchiveError>)
      requires Shaped()
      modifies this, path, link
      ensures Shaped()
      ensures
        match StartNamed(old(View()), old(header[..]), so, size, Sizes())
        case Err(e) => r == Err(e)
        case Ok(o) => r == Ok(o.events) && View() == o.parser
    {
      hide OverridesFrom, EntryPath, EntryLink, KindOf, Announce, Decimal;
      var kind := KindOf(header[156]);
      var _ :- ResolveNames(so, kind);
      pendingLongPath, pendingLongLink := false, false;
      entryRemaining, paddingRemaining := size, PaddingFor(size);
      r := AnnounceEntry(kind, size);
    }

    /** A full header, which is not kept any longer. */
    method ConsumeHeader() returns (r: Result<seq<Event>, ArchiveError>)
      requires Shaped()
      modifies this, path, link
      ensures Shaped()
      ensures
        match TakeHeader(old(View()), old(header[..]), Sizes())
        case Err(e) => r == Err(e)
        case Ok(o) => r == Ok(o.events) && View() == o.parser
    {
      hide StartExtension, StartEntry, ChecksumMatches, ParseNumber;
      if forall k :: 0 <= k < header.Length ==> header[k] == 0 {
        assert header[..] == Zeros(BLOCK_SIZE);
        if current != Nothing {
          return Err(InvalidState);
        }
        zeroBlocks := zeroBlocks + 1;
        return Ok([]);
      }
      if zeroBlocks != 0 {
        return Err(InvalidEndMarker);
      }
      var verified := TarExtractor.VerifyChecksum(header[..]);
      if !verified {
        return Err(InvalidChecksum);
      }
      assert header[..][124..136] == header[124..136];
      var size := ParseNumberField(header[124..136]);
      if size.None? {
        return Err(InvalidSize);
      }
      var extension := OpenExtension(header[156], size.value);
      if extension.Some? {
        return extension.value;
      }
      r := OpenEntry(size.value);
    }

    /** Adds to the header, and uses it when it is full. */
    method CollectHeader(bytes: seq<u8>) returns (r: Result<seq<Event>, ArchiveError>)
      requires Valid() && entryRemaining == 0 && paddingRemaining == 0 && zeroBlocks < 2
      requires 0 < |bytes| <= BLOCK_SIZE - headerLen
      modifies this, header, path, link
      ensures Shaped()
      ensures
        var trace := Run(old(View()), bytes, Sizes());
        match trace.end
        case Err(e) => r == Err(e) && trace.events == []
        case Ok(q) => r == Ok(trace.events) && View() == q
    {
      hide TakeHeader, Run, Sane;
      ghost var before := View();
      RunHeader(before, bytes, Sizes());
      CopyInto(header, headerLen, bytes);
      headerLen := headerLen + |bytes|;
      if headerLen < BLOCK_SIZE {
        return Ok([]);
      }
      assert header[..BLOCK_SIZE] == header[..];
      headerLen := 0;
      assert header[..0] == [];
      r := ConsumeHeader();
    }

    /** One step on the front of the input: content, padding, or header. */
    method TakeFront(input: seq<u8>) returns (r: Result<seq<Event>, ArchiveError>, length: nat)
      requires Valid() && input != [] && zeroBlocks < 2
      modifies this, header, path, link, pax
      ensures Shaped() && 0 < length <= |input|
      ensures
        var trace := Run(old(View()), input[..length], Sizes());
        match trace.end
        case Err(e) => r == Err(e) && trace.events == []
        case Ok(q) => r.Ok? && Explode(r.value) == trace.events && Pieces(r.value) && View() == q
    {
      hide Run, TakeChunk, TakeHeader, Explode;
      ghost var before := View();
      if entryRemaining != 0 {
        length := Min(|input|, entryRemaining);
        RunChunk(before, input[..length], Sizes());
        ChunkPieces(before, input[..length], Sizes());
        r := StoreContent(input[..length]);
        return;
      }
      if paddingRemaining != 0 {
        length := Min(|input|, paddingRemaining);
        RunPadding(before, input[..length], Sizes());
        paddingRemaining := paddingRemaining - length;
        if paddingRemaining == 0 {
          current := Nothing;
        }
        ExplodeNoData([]);
        return Ok([]), length;
      }
      length := Min(|input|, BLOCK_SIZE - headerLen);
      RunHeader(before, input[..length], Sizes());
      r := CollectHeader(input[..length]);
      if r.Ok? {
        HeaderHasNoData(before.(header := []), before.header + input[..length], Sizes());
        ExplodeNoData(r.value);
      }
    }

    /** Consumes a fragment, and emits its events: those of its bytes one after another, up to how data is cut. */
    method Push(input: seq<u8>) returns (r: Result<(), ArchiveError>, events: seq<Event>)
      requires Valid()
      modifies this, header, path, link, pax
      ensures Shaped() && Pieces(events)
      ensures Explode(events) == Run(old(View()), input, Sizes()).events
      ensures
        match Run(old(View()), input, Sizes()).end
        case Err(e) => r == Err(e)
        case Ok(q) => r == Ok(()) && Valid() && View() == q
    {
      hide Run, Explode, Sane;
      ghost var start := View();
      ghost var whole := Run(start, input, Sizes());
      events := [];
      ExplodeNoData([]);
      assert [] + whole.events == whole.events;
      var rest := input;
      while |rest| > 0
        invariant Valid() && Pieces(events)
        invariant whole.events == Explode(events) + Run(View(), rest, Sizes()).events
        invariant whole.end == Run(View(), rest, Sizes()).end
        decreases |rest|
      {
        ghost var now := View();
        if zeroBlocks == 2 {
          RunOver(now, rest, Sizes());
          assert Explode(events) + [] == Explode(events);
          return Ok(()), events;
        }
        var taken, length := TakeFront(rest);
        Cut(now, rest, length, Sizes());
        if taken.Err? {
          assert Explode(events) + [] == Explode(events);
          return Err(taken.error), events;
        }
        RunFollowsGrammar(now, rest[..length], Sizes());
        ExplodeConcat(events, taken.value);
        Associate(Explode(events), Explode(taken.value), Run(View(), rest[length..], Sizes()).events);
        events := events + taken.value;
        rest := rest[length..];
      }
      NoBytes(View(), rest, Sizes());
      assert Explode(events) + [] == Explode(events);
      r := Ok(());
    }

    method Finish() returns (r: Result<(), FinishError>)
      requires Valid()
      ensures r == FinishOf(View())
    {
      assert |View().header| == headerLen;
      if zeroBlocks != 2 || headerLen != 0 || entryRemaining != 0 || paddingRemaining != 0 || entryOpen
          || current != Nothing {
        return Err(UnexpectedEof);
      }
      if pendingLongPath || pendingLongLink || pendingPax {
        return Err(DanglingExtension);
      }
      r := Ok(());
    }
  }

  /** Pieces of data are never empty. */
  predicate Pieces(events: seq<Event>)
  {
    forall k :: 0 <= k < |events| ==> events[k].EntryData? ==> events[k].bytes != []
  }

  lemma ChunkPieces(p: Parser, bytes: seq<u8>, capacity: Capacity)
    requires 0 < |bytes| <= p.remaining
    ensures TakeChunk(p, bytes, capacity).Ok? ==> Pieces(TakeChunk(p, bytes, capacity).value.events)
  {
    hide FinishContent;
    FinishHasNoData(ChunkTaken(p, bytes));
    ChunkIs(p, bytes, capacity);
  }

  /** A header emits no data. */
  lemma HeaderHasNoData(p: Parser, header: seq<u8>, capacity: Capacity)
    ensures |header| == BLOCK_SIZE && TakeHeader(p, header, capacity).Ok?
        ==> NoData(TakeHeader(p, header, capacity).value.events)
  {
    hide FinishContent, ChecksumMatches, ParseNumber, StartExtension, StartEntry;
    if |header| == BLOCK_SIZE && ParseNumber(header[124..136]).Some? {
      var size := ParseNumber(header[124..136]).value;
      ExtensionHasNoData(p, header[156], size);
      EntryHasNoData(p, header, size, capacity);
    }
  }

  lemma ExtensionHasNoData(p: Parser, flag: u8, size: nat)
    ensures
      match StartExtension(p, flag, size)
      case Some(Ok(o)) => NoData(o.events)
      case _ => true
  {
  }

  lemma EntryHasNoData(p: Parser, header: seq<u8>, size: nat, capacity: Capacity)
    requires |header| == BLOCK_SIZE
    ensures StartEntry(p, header, size, capacity).Ok? ==> NoData(StartEntry(p, header, size, capacity).value.events)
  {
    hide Describe, Decimal, EntryPath, EntryLink, KindOf, Announce;
    forall named: Parser, kind: EntryKind
      ensures Announce(named, header, kind).Ok? ==> NoData(Announce(named, header, kind).value.events)
    {
      AnnounceHasNoData(named, header, kind);
    }
  }

  lemma AnnounceHasNoData(named: Parser, header: seq<u8>, kind: EntryKind)
    requires |header| == BLOCK_SIZE
    ensures Announce(named, header, kind).Ok? ==> NoData(Announce(named, header, kind).value.events)
  {
    hide EntryOf, WhiteoutOf, FinishContent;
    FinishHasNoData(named.(current := Normal, isOpen := true, hasPax := false, pax := []));
  }

  lemma Cut(p: Parser, input: seq<u8>, length: nat, capacity: Capacity)
    requires length <= |input|
    ensures Run(p, input, capacity) == Then(Run(p, input[..length], capacity), input[length..], capacity)
  {
    assert input == input[..length] + input[length..];
    RunConcat(p, input[..length], input[length..], capacity);
  }

  lemma NoBytes(p: Parser, input: seq<u8>, capacity: Capacity)
    requires input == []
    ensures Run(p, input, capacity) == Trace([], Ok(p))
  {
  }

  lemma LinkIgnoresPath(p: Parser, header: seq<u8>, so: Overrides, kind: EntryKind, name: seq<u8>, raw: seq<u8>,
      capacity: Capacity)
    requires |header| == BLOCK_SIZE
    ensures EntryLink(p.(path := raw), header, so, kind, name, capacity)
        == EntryLink(p, header, so, kind, name, capacity)
  {
  }

  // ----- the grammar, as the sink sees it

  lemma {:induction false} BytewiseFollows(place: Place, bytes: seq<u8>)
    requires bytes != []
    ensures FollowAll(place, Bytewise(bytes)) == Follow(place, EntryData(bytes))
  {
    var byte := bytes[|bytes| - 1];
    if |bytes| == 1 {
      assert bytes == [byte] && Bytewise(bytes[..0]) == [];
      assert [] + [EntryData([byte])] == [EntryData([byte])];
      FollowOne(place, EntryData([byte]));
    } else {
      var front := bytes[..|bytes| - 1];
      BytewiseFollows(place, front);
      FollowAppend(place, Bytewise(front), EntryData([byte]));
    }
  }

  lemma FollowAppend(place: Place, events: seq<Event>, event: Event)
    ensures FollowAll(place, events + [event]) ==
      match FollowAll(place, events)
      case None => None
      case Some(next) => Follow(next, event)
  {
    FollowBoth(place, events, [event]);
    if FollowAll(place, events).Some? {
      FollowOne(FollowAll(place, events).value, event);
    }
  }

  lemma {:induction false} FollowBoth(place: Place, a: seq<Event>, b: seq<Event>)
    ensures FollowAll(place, a + b) ==
      match FollowAll(place, a)
      case None => None
      case Some(next) => FollowAll(next, b)
    decreases |a|
  {
    if a == [] {
      assert a + b == b;
    } else {
      assert (a + b)[0] == a[0] && (a + b)[1..] == a[1..] + b;
      if Follow(place, a[0]).Some? {
        FollowBoth(Follow(place, a[0]).value, a[1..], b);
      }
    }
  }

  /** How data is cut does not matter to the grammar. */
  lemma {:induction false} ExplodeFollows(place: Place, events: seq<Event>)
    requires Pieces(events)
    ensures FollowAll(place, Explode(events)) == FollowAll(place, events)
  {
    hide FollowAll, Bytewise;
    if events == [] {
    } else {
      var front, last := events[..|events| - 1], events[|events| - 1];
      assert events == front + [last];
      ExplodeFollows(place, front);
      FollowAppend(place, front, last);
      if last.EntryData? {
        FollowBoth(place, Explode(front), Bytewise(last.bytes));
        if FollowAll(place, front).Some? {
          BytewiseFollows(FollowAll(place, front).value, last.bytes);
        }
      } else {
        FollowAppend(place, Explode(front), last);
      }
    }
  }

  datatype Verdict = Failed(error: ArchiveError) | Ended(result: Result<(), FinishError>)

  /** A whole archive, in fragments of any sizes: the events, up to how data is cut, and the verdict are
      those of its bytes one after another. What the sink sees follows the grammar, whatever happens,
      and ends between entries if the archive is accepted; the parser never finds itself in an invalid state. */
  method ParseFragments(archive: Archive, fragments: seq<seq<u8>>) returns (verdict: Verdict, events: seq<Event>)
    requires archive.Valid() && archive.View() == START
    modifies archive, archive.header, archive.path, archive.link, archive.pax
    ensures
      var trace := Run(START, Flatten(fragments), archive.Sizes());
      && Explode(events) == trace.events
      && verdict == (match trace.end case Err(e) => Failed(e) case Ok(q) => Ended(FinishOf(q)))
    ensures FollowAll(Between, events).Some?
    ensures verdict != Failed(InvalidState)
    ensures verdict == Ended(Ok(())) ==> FollowAll(Between, events) == Some(Between)
  {
    hide Run, Explode, Sane, FollowAll, FinishOf;
    ghost var sizes, all := archive.Sizes(), Flatten(fragments);
    ghost var whole := Run(START, all, sizes);
    Conclude(all, sizes);
    events := [];
    ExplodeNoData([]);
    assert [] + whole.events == whole.events;
    assert fragments[0..] == fragments;
    for i := 0 to |fragments|
      invariant archive.Valid() && Pieces(events)
      invariant whole.events == Explode(events) + Run(archive.View(), Flatten(fragments[i..]), sizes).events
      invariant whole.end == Run(archive.View(), Flatten(fragments[i..]), sizes).end
    {
      ghost var now, later := archive.View(), Flatten(fragments[i + 1..]);
      assert fragments[i..][1..] == fragments[i + 1..];
      RunConcat(now, fragments[i], later, sizes);
      var pushed, more := archive.Push(fragments[i]);
      ExplodeConcat(events, more);
      if pushed.Err? {
        ExplodeFollows(Between, events + more);
        return Failed(pushed.error), events + more;
      }
      Associate(Explode(events), Explode(more), Run(archive.View(), later, sizes).events);
      events := events + more;
    }
    NoBytes(archive.View(), Flatten(fragments[|fragments|..]), sizes);
    assert Explode(events) + [] == Explode(events);
    ExplodeFollows(Between, events);
    var finished := archive.Finish();
    verdict := Ended(finished);
  }

  lemma Conclude(bytes: seq<u8>, capacity: Capacity)
    ensures
      var trace := Run(START, bytes, capacity);
      && FollowAll(Between, trace.events).Some? && trace.end != Err(InvalidState)
      && (trace.end.Ok? && FinishOf(trace.end.value) == Ok(()) ==> FollowAll(Between, trace.events) == Some(Between))
  {
    hide Run, FollowAll, AllClean;
    RunFollowsGrammar(START, bytes, capacity);
  }
}
