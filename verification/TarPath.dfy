/** The errors of the layer parser. */
module TarErrors {

  datatype Scratch = Path | Link | Pax

  datatype PaxError = InvalidLength | InvalidRecord

  datatype ArchiveError =
    | InvalidChecksum
    | InvalidSize
    | InvalidMetadata
    | InvalidEndMarker
    | InvalidPath
    | InvalidLink
    | InvalidWhiteout
    | InvalidPax(error: PaxError)
    | UnsupportedGlobalPax
    | BufferTooSmall(scratch: Scratch)
    | InvalidState
}

/** Paths in tar archives (src/tar.rs lines 917-988): splitting at slashes,
    normalizing in place, symbolic link targets and OCI whiteouts. */
module TarPath {
  import opened Numbers
  import opened Results
  import opened AsciiText
  import opened TarErrors
  import opened TarHeader

  const DOT: u8 := 0x2e

  // ----- components

  /** The parts between slashes; there is always at least one. */
  function Split(path: seq<u8>): (parts: seq<seq<u8>>)
    ensures parts != []
    decreases |path|
  {
    var n := FirstOf(path, SLASH);
    if n == |path| then [path] else [path[..n]] + Split(path[n + 1..])
  }

  function Join(parts: seq<seq<u8>>): seq<u8>
  {
    if parts == [] then []
    else if |parts| == 1 then parts[0]
    else parts[0] + [SLASH] + Join(parts[1..])
  }

  /** Splitting loses nothing. */
  lemma {:induction false} JoinInvertsSplit(path: seq<u8>)
    ensures Join(Split(path)) == path
    decreases |path|
  {
    var n := FirstOf(path, SLASH);
    if n < |path| {
      JoinInvertsSplit(path[n + 1..]);
      assert Split(path)[1..] == Split(path[n + 1..]);
      assert path == path[..n] + [SLASH] + path[n + 1..];
    }
  }

  predicate NoSlash(part: seq<u8>)
  {
    SLASH !in part
  }

  /** Joining parts that hold no slash loses nothing either. */
  lemma {:induction false} SplitInvertsJoin(parts: seq<seq<u8>>)
    requires parts != [] && forall k :: 0 <= k < |parts| ==> NoSlash(parts[k])
    ensures Split(Join(parts)) == parts
    decreases |parts|
  {
    var path := Join(parts);
    if |parts| == 1 {
      assert NoSlash(parts[0]);
      assert FirstOf(path, SLASH) == |path|;
      assert parts == [parts[0]];
    } else {
      assert NoSlash(parts[0]);
      var n := |parts[0]|;
      assert path[n] == SLASH;
      assert forall k :: 0 <= k < n ==> path[k] == parts[0][k];
      assert FirstOf(path, SLASH) == n;
      assert path[..n] == parts[0] && path[n + 1..] == Join(parts[1..]);
      SplitInvertsJoin(parts[1..]);
      assert parts == [parts[0]] + parts[1..];
    }
  }

  lemma {:induction false} SplitHasNoSlash(path: seq<u8>, part: seq<u8>)
    requires part in Split(path)
    ensures NoSlash(part) && forall b :: b in part ==> b in path
    decreases |path|
  {
    var n := FirstOf(path, SLASH);
    if n == |path| {
      assert part == path;
    } else if part == path[..n] {
      assert forall k :: 0 <= k < n ==> path[k] != SLASH;
    } else {
      SplitHasNoSlash(path[n + 1..], part);
    }
  }

  // ----- normal form

  const DOT_DOT: seq<u8> := [DOT, DOT]

  predicate IsKept(part: seq<u8>)
  {
    part != [] && part != [DOT]
  }

  function Kept(parts: seq<seq<u8>>): seq<seq<u8>>
  {
    if parts == [] then []
    else Kept(parts[..|parts| - 1]) + if IsKept(parts[|parts| - 1]) then [parts[|parts| - 1]] else []
  }

  lemma KeptAppend(parts: seq<seq<u8>>, part: seq<u8>)
    ensures Kept(parts + [part]) == if IsKept(part) then Kept(parts) + [part] else Kept(parts)
  {
    assert (parts + [part])[..|parts|] == parts;
  }

  lemma {:induction false} KeptAll(parts: seq<seq<u8>>)
    requires forall k :: 0 <= k < |parts| ==> IsKept(parts[k])
    ensures Kept(parts) == parts
  {
    if parts != [] {
      KeptAll(parts[..|parts| - 1]);
      assert parts == parts[..|parts| - 1] + [parts[|parts| - 1]];
    }
  }

  lemma {:induction false} KeptIsFrom(parts: seq<seq<u8>>, part: seq<u8>)
    requires part in Kept(parts)
    ensures part in parts && IsKept(part)
  {
    var last := parts[|parts| - 1];
    if part in Kept(parts[..|parts| - 1]) {
      KeptIsFrom(parts[..|parts| - 1], part);
    }
  }

  /** The components that are neither empty nor ".", joined; "." if none is left. */
  function Normalized(path: seq<u8>): (r: Result<seq<u8>, ArchiveError>)
    ensures r.Err? <==> path == [] || path[0] == SLASH || 0 in path || DOT_DOT in Split(path)
    ensures r.Err? ==> r.error == InvalidPath
  {
    if path == [] || path[0] == SLASH || 0 in path || DOT_DOT in Split(path) then Err(InvalidPath)
    else if Kept(Split(path)) == [] then Ok([DOT])
    else Ok(Join(Kept(Split(path))))
  }

  predicate IsNormal(path: seq<u8>)
  {
    Normalized(path) == Ok(path)
  }

  lemma {:induction false} JoinBytes(parts: seq<seq<u8>>, b: u8)
    requires b in Join(parts)
    ensures b == SLASH || exists k :: 0 <= k < |parts| && b in parts[k]
    decreases |parts|
  {
    if |parts| == 1 {
      assert b in parts[0];
    } else if b !in parts[0] && b != SLASH {
      JoinBytes(parts[1..], b);
      var k :| 0 <= k < |parts[1..]| && b in parts[1..][k];
      assert b in parts[k + 1];
    }
  }

  /** A component that normalizing leaves alone. */
  predicate IsPlain(part: seq<u8>)
  {
    IsKept(part) && part != DOT_DOT && NoSlash(part) && 0 !in part
  }

  predicate AllPlain(parts: seq<seq<u8>>)
  {
    forall k :: 0 <= k < |parts| ==> IsPlain(parts[k])
  }

  lemma {:induction false} PlainIsNormal(parts: seq<seq<u8>>)
    requires parts != [] && AllPlain(parts)
    ensures IsNormal(Join(parts))
  {
    forall k | 0 <= k < |parts|
      ensures IsKept(parts[k]) && NoSlash(parts[k]) && 0 !in parts[k]
    {
      assert IsPlain(parts[k]);
    }
    SplitInvertsJoin(parts);
    KeptAll(parts);
    var joined := Join(parts);
    if 0 in joined {
      JoinBytes(parts, 0);
    }
    assert IsPlain(parts[0]);
    assert parts[0] <= joined && joined[0] == parts[0][0] && parts[0][0] in parts[0];
  }

  /** The components that are kept of a path that can be normalized are plain. */
  lemma KeptIsPlain(path: seq<u8>, part: seq<u8>)
    requires Normalized(path).Ok? && part in Kept(Split(path))
    ensures IsPlain(part)
  {
    KeptIsFrom(Split(path), part);
    SplitHasNoSlash(path, part);
  }

  /** Normalizing is idempotent. */
  lemma NormalizedIsNormal(path: seq<u8>)
    requires Normalized(path).Ok?
    ensures IsNormal(Normalized(path).value)
  {
    var kept := Kept(Split(path));
    if kept == [] {
      DotIsNormal();
    } else {
      forall k | 0 <= k < |kept|
        ensures IsPlain(kept[k])
      {
        KeptIsPlain(path, kept[k]);
      }
      PlainIsNormal(kept);
    }
  }

  /** Normal form, component by component: the root, or a path of plain components. */
  lemma NormalForm(path: seq<u8>)
    ensures IsNormal(path) <==> path == [DOT] || AllPlain(Split(path))
  {
    var kept := Kept(Split(path));
    if IsNormal(path) && path != [DOT] {
      forall k | 0 <= k < |kept|
        ensures IsPlain(kept[k]) && NoSlash(kept[k])
      {
        KeptIsPlain(path, kept[k]);
      }
      SplitInvertsJoin(kept);
    } else if path == [DOT] {
      DotIsNormal();
    } else if AllPlain(Split(path)) {
      PlainIsNormal(Split(path));
      JoinInvertsSplit(path);
    }
  }

  lemma DotIsNormal()
    ensures IsNormal([DOT])
  {
    assert FirstOf([DOT], SLASH) == 1;
    assert Split([DOT]) == [[DOT]];
    assert [[DOT]][..0] == [];
    assert Kept([[DOT]]) == Kept([]) + [];
  }

  lemma {:induction false} JoinAppend(parts: seq<seq<u8>>, part: seq<u8>)
    ensures Join(parts + [part]) == if parts == [] then part else Join(parts) + [SLASH] + part
    decreases |parts|
  {
    if parts == [] {
      assert parts + [part] == [part];
    } else {
      assert (parts + [part])[1..] == parts[1..] + [part];
      JoinAppend(parts[1..], part);
      if |parts| == 1 {
        assert parts[1..] == [];
      } else {
        var tail := Join(parts[1..]);
        assert parts[0] + [SLASH] + (tail + [SLASH] + part) == (parts[0] + [SLASH] + tail) + [SLASH] + part;
      }
    }
  }

  // ----- in place

  /** Moves a stretch towards the front, byte by byte; the two may overlap. */
  method CopyWithin(bytes: array<u8>, from: nat, to: nat, dest: nat)
    requires dest <= from <= to <= bytes.Length
    modifies bytes
    ensures bytes[dest..dest + (to - from)] == old(bytes[from..to])
    ensures forall k :: 0 <= k < dest || dest + (to - from) <= k < bytes.Length ==> bytes[k] == old(bytes[k])
  {
    for i := 0 to to - from
      invariant forall k :: dest <= k < dest + i ==> bytes[k] == old(bytes[from + (k - dest)])
      invariant forall k :: 0 <= k < dest || dest + i <= k < bytes.Length ==> bytes[k] == old(bytes[k])
    {
      bytes[dest + i] := bytes[from + i];
    }
  }

  /** The components of a path: those that are done, and those of the text that is left, if any is. */
  ghost predicate Compacted(original: seq<u8>, done: seq<seq<u8>>, more: bool, rest: seq<u8>)
  {
    Split(original) == (if more then done + Split(rest) else done) && Clean(done)
  }

  ghost predicate Clean(parts: seq<seq<u8>>)
  {
    DOT_DOT !in parts
  }

  lemma CleanAppend(parts: seq<seq<u8>>, part: seq<u8>)
    requires Clean(parts) && part != DOT_DOT
    ensures Clean(parts + [part])
  {
  }

  /** The next component goes from what is left to what is done. */
  lemma NextPart(original: seq<u8>, done: seq<seq<u8>>, rest: seq<u8>)
    requires Compacted(original, done, true, rest)
    ensures
      var n := FirstOf(rest, SLASH);
      var part := rest[..n];
      && (part != DOT_DOT ==> Compacted(original, done + [part], n < |rest|, if n < |rest| then rest[n + 1..] else []))
      && (part == DOT_DOT ==> DOT_DOT in Split(original))
  {
    hide FirstOf, Split, Clean, DOT_DOT;
    var n := FirstOf(rest, SLASH);
    var part := rest[..n];
    SplitHead(rest);
    Reassociate(done, part, if n < |rest| then Split(rest[n + 1..]) else []);
    if part != DOT_DOT {
      CleanAppend(done, part);
    }
  }

  lemma SplitHead(path: seq<u8>)
    ensures
      var n := FirstOf(path, SLASH);
      Split(path) == [path[..n]] + if n < |path| then Split(path[n + 1..]) else []
  {
    assert path[..|path|] == path;
  }

  lemma Reassociate(done: seq<seq<u8>>, part: seq<u8>, later: seq<seq<u8>>)
    ensures done + ([part] + later) == (done + [part]) + later
    ensures later == [] ==> done + ([part] + later) == done + [part]
    ensures part in done + ([part] + later)
  {
    assert (done + ([part] + later))[|done|] == part;
  }

  lemma EndCompacting(original: seq<u8>, done: seq<seq<u8>>, more: bool)
    requires Compacted(original, done, more, [])
    ensures Kept(Split(original)) == Kept(done) && DOT_DOT !in Split(original)
  {
    if more {
      assert Split([]) == [[]];
      KeptAppend(done, []);
    }
  }

  /** Compacts the first `length` bytes; no byte is overwritten before it has been read. */
  method NormalizePath(bytes: array<u8>, length: nat) returns (r: Result<nat, ArchiveError>)
    requires length <= bytes.Length
    modifies bytes
    ensures
      match Normalized(old(bytes[..length]))
      case Err(e) => r == Err(e)
      case Ok(path) => r == Ok(|path|) && |path| <= length && bytes[..|path|] == path
    ensures forall k :: length <= k < bytes.Length ==> bytes[k] == old(bytes[k])
  {
    hide Split, Kept, Join, Compacted, FirstOf, Unread, InPlace;
    ghost var original := bytes[..length];
    if length == 0 || bytes[0] == SLASH || 0 in bytes[..length] {
      return Err(InvalidPath);
    }
    var read: nat, write: nat := 0, 0;
    ghost var done: seq<seq<u8>>, rest: seq<u8>, more := [], original, true;
    StartInPlace(bytes, length);
    while read < length
      invariant Compacted(original, done, more, rest) && InPlace(bytes, length, read, write, done, more, rest)
      invariant forall k :: length <= k < bytes.Length ==> bytes[k] == old(bytes[k])
      decreases length - read
    {
      var end, part := TakePart(bytes, length, read, write, done, more, rest);
      NextPart(original, done, rest);
      if part == DOT_DOT {
        return Err(InvalidPath);
      }
      write := KeepPart(bytes, length, read, end, write, done, rest, part);
      done, more, rest := done + [part], end < length, if end < length then rest[end - read + 1..] else [];
      read := end + 1;
    }
    EndInPlace(bytes, length, read, write, done, more, rest);
    EndCompacting(original, done, more);
    if write == 0 {
      bytes[0] := DOT;
      write := 1;
      assert bytes[..1] == [DOT];
    }
    r := Ok(write);
  }

  /** The kept components are in front, and what is left to read is untouched behind them. */
  ghost predicate InPlace(bytes: array<u8>, length: nat, read: nat, write: nat, done: seq<seq<u8>>, more: bool,
      rest: seq<u8>)
    reads bytes
  {
    && length <= bytes.Length && (read <= length <==> more) && |rest| == (if more then length - read else 0)
    && write <= length && (write == 0 || write + 1 <= read) && (write == 0 <==> Kept(done) == [])
    && bytes[..write] == Join(Kept(done))
    && (more ==> Unread(bytes, read, rest))
  }

  lemma StartInPlace(bytes: array<u8>, length: nat)
    requires length <= bytes.Length
    ensures Compacted(bytes[..length], [], true, bytes[..length])
    ensures InPlace(bytes, length, 0, 0, [], true, bytes[..length])
  {
    hide Compacted, Unread;
    StartCompacting(bytes[..length]);
    AllUnread(bytes, length);
    assert bytes[..0] == [];
  }

  lemma EndInPlace(bytes: array<u8>, length: nat, read: nat, write: nat, done: seq<seq<u8>>, more: bool, rest: seq<u8>)
    requires InPlace(bytes, length, read, write, done, more, rest) && read >= length
    ensures rest == [] && write <= length && (write == 0 <==> Kept(done) == []) && bytes[..write] == Join(Kept(done))
  {
    hide Unread, Kept, Join;
  }

  /** The next component. */
  method TakePart(bytes: array<u8>, length: nat, read: nat, write: nat, ghost done: seq<seq<u8>>, ghost more: bool,
      ghost rest: seq<u8>)
    returns (end: nat, part: seq<u8>)
    requires InPlace(bytes, length, read, write, done, more, rest) && read < length
    ensures more && read <= end <= length && |rest| == length - read
    ensures end - read == FirstOf(rest, SLASH) && part == rest[..end - read] && part == bytes[read..end]
  {
    hide FirstOf, Unread, Kept, Join;
    UnreadSlice(bytes, read, rest);
    end := read + FirstOf(bytes[read..length], SLASH);
    part := bytes[read..end];
    UnreadPart(bytes, read, rest, end - read);
  }

  /** Keeps a component, or drops it. */
  method KeepPart(bytes: array<u8>, length: nat, read: nat, end: nat, write: nat, ghost done: seq<seq<u8>>,
      ghost rest: seq<u8>, part: seq<u8>)
    returns (after: nat)
    requires InPlace(bytes, length, read, write, done, true, rest)
    requires read <= end <= length && |rest| == length - read && part == rest[..end - read] && part == bytes[read..end]
    modifies bytes
    ensures InPlace(bytes, length, end + 1, after, done + [part], end < length,
        if end < length then rest[end - read + 1..] else [])
    ensures forall k :: length <= k < bytes.Length ==> bytes[k] == old(bytes[k])
  {
    hide Unread, Kept, Join;
    UnreadPart(bytes, read, rest, end - read);
    KeepStep(done, part);
    after := write;
    if IsKept(part) {
      after := MovePart(bytes, read, end, write, if end < length then rest[end - read + 1..] else []);
    }
  }

  /** What is left to read is still in place. */
  ghost predicate Unread(bytes: array<u8>, read: nat, rest: seq<u8>)
    reads bytes
  {
    read + |rest| <= bytes.Length && forall k :: read <= k < read + |rest| ==> bytes[k] == rest[k - read]
  }

  lemma AllUnread(bytes: array<u8>, length: nat)
    requires length <= bytes.Length
    ensures Unread(bytes, 0, bytes[..length])
  {
  }

  lemma UnreadSlice(bytes: array<u8>, read: nat, rest: seq<u8>)
    requires Unread(bytes, read, rest)
    ensures bytes[read..read + |rest|] == rest
  {
  }

  lemma UnreadPart(bytes: array<u8>, read: nat, rest: seq<u8>, n: nat)
    requires Unread(bytes, read, rest) && n <= |rest|
    ensures bytes[read..read + n] == rest[..n]
    ensures n < |rest| ==> Unread(bytes, read + n + 1, rest[n + 1..])
  {
  }

  lemma KeepStep(done: seq<seq<u8>>, part: seq<u8>)
    ensures Kept(done + [part]) == if IsKept(part) then Kept(done) + [part] else Kept(done)
    ensures Join(Kept(done) + [part]) == if Kept(done) == [] then part else Join(Kept(done)) + [SLASH] + part
  {
    hide Kept, Join;
    KeptAppend(done, part);
    JoinAppend(Kept(done), part);
  }

  /** Appends a component to what has been kept, with a slash in between. */
  method MovePart(bytes: array<u8>, start: nat, end: nat, write: nat, ghost rest: seq<u8>) returns (after: nat)
    requires start <= end <= bytes.Length && (write == 0 || write + 1 <= start)
    modifies bytes
    ensures after == (if write == 0 then 0 else write + 1) + (end - start) && after <= end
    ensures bytes[..after]
        == old(if write == 0 then bytes[start..end] else bytes[..write] + [SLASH] + bytes[start..end])
    ensures forall k :: end <= k < bytes.Length ==> bytes[k] == old(bytes[k])
    ensures old(Unread(bytes, end + 1, rest)) ==> Unread(bytes, end + 1, rest)
  {
    after := write;
    if write != 0 {
      bytes[write] := SLASH;
      after := write + 1;
    }
    ghost var prefix := bytes[..after];
    assert bytes[start..end] == old(bytes[start..end]);
    CopyWithin(bytes, start, end, after);
    assert bytes[..after] == prefix;
    assert bytes[..after + (end - start)] == prefix + bytes[after..after + (end - start)];
    after := after + (end - start);
  }

  lemma StartCompacting(original: seq<u8>)
    ensures Compacted(original, [], true, original) && Kept([]) == [] && Join([]) == []
  {
    assert [] + Split(original) == Split(original);
  }

  // ----- symbolic links

  /** How far below (or, if negative, above) its start a relative path leads. */
  function Descent(parts: seq<seq<u8>>): int
  {
    if parts == [] then 0
    else
      var last := parts[|parts| - 1];
      Descent(parts[..|parts| - 1]) + if last == DOT_DOT then -1 else if IsKept(last) then 1 else 0
  }

  /** Followed from the directory of `path`, the target never leaves the root, not even on the way. */
  ghost predicate StaysInside(path: seq<u8>, target: seq<u8>)
  {
    forall k :: 0 <= k <= |Split(target)| ==> |Split(path)| - 1 + Descent(Split(target)[..k]) >= 0
  }

  method ValidateSymbolicLink(path: seq<u8>, target: seq<u8>) returns (r: Result<(), ArchiveError>)
    ensures r == if target != [] && target[0] != SLASH && 0 !in target && StaysInside(path, target) then Ok(())
        else Err(InvalidLink)
  {
    hide Split;
    if target == [] || target[0] == SLASH || 0 in target {
      return Err(InvalidLink);
    }
    var parts := Split(target);
    var depth: nat := |Split(path)| - 1;
    for k := 0 to |parts|
      invariant depth == |Split(path)| - 1 + Descent(parts[..k])
      invariant forall j :: 0 <= j <= k ==> |Split(path)| - 1 + Descent(parts[..j]) >= 0
    {
      assert parts[..k + 1][..k] == parts[..k];
      if parts[k] == DOT_DOT {
        if depth == 0 {
          return Err(InvalidLink);
        }
        depth := depth - 1;
      } else if IsKept(parts[k]) {
        depth := depth + 1;
      }
    }
    r := Ok(());
  }

  // ----- whiteouts

  datatype Mark = Remove | Opaque

  /** ".wh." */
  const WHITEOUT_PREFIX: seq<u8> := [DOT, 0x77, 0x68, DOT]

  /** ".wh..wh..opq" */
  const OPAQUE_NAME: seq<u8> := [DOT, 0x77, 0x68, DOT, DOT, 0x77, 0x68, DOT, DOT, 0x6f, 0x70, 0x71]

  /** Where the last component begins. */
  function BaseAt(path: seq<u8>): (base: nat)
    ensures base <= |path| && (base > 0 ==> path[base - 1] == SLASH) && NoSlash(path[base..])
  {
    if path == [] then 0
    else if path[|path| - 1] == SLASH then |path|
    else
      var base := BaseAt(path[..|path| - 1]);
      assert path[base..] == path[..|path| - 1][base..] + [path[|path| - 1]];
      base
  }

  /** What a marker file at this path says, and about which path. */
  function WhiteoutOf(path: seq<u8>): Option<(Mark, seq<u8>)>
  {
    var base := BaseAt(path);
    var name := path[base..];
    if name == OPAQUE_NAME then Some((Opaque, if base == 0 then [DOT] else path[..base - 1]))
    else if WHITEOUT_PREFIX <= name && |name| > 4 then Some((Remove, path[..base] + name[4..]))
    else None
  }

  lemma {:induction false} BaseOfJoin(front: seq<u8>, name: seq<u8>)
    requires NoSlash(name) && (front == [] || front[|front| - 1] == SLASH)
    ensures BaseAt(front + name) == |front|
  {
    var path := front + name;
    if name == [] {
      assert path == front;
    } else {
      assert path[..|path| - 1] == front + name[..|name| - 1];
      assert path[|path| - 1] == name[|name| - 1] && name[|name| - 1] in name;
      BaseOfJoin(front, name[..|name| - 1]);
    }
  }

  /** A marker names a sibling of itself, or, if it is the opaque marker, its own directory. */
  lemma WhiteoutNames(directories: seq<seq<u8>>, name: seq<u8>)
    requires NoSlash(name)
    ensures WhiteoutOf(Join(directories + [name])) ==
      if name == OPAQUE_NAME then Some((Opaque, if directories == [] then [DOT] else Join(directories)))
      else if WHITEOUT_PREFIX <= name && |name| > 4 then Some((Remove, Join(directories + [name[4..]])))
      else None
  {
    hide BaseAt, Join, OPAQUE_NAME, WHITEOUT_PREFIX;
    JoinAppend(directories, name);
    if |name| > 4 {
      JoinAppend(directories, name[4..]);
    }
    var front := if directories == [] then [] else Join(directories) + [SLASH];
    assert front + name == Join(directories + [name]);
    BaseOfJoin(front, name);
    assert (front + name)[|front|..] == name && (front + name)[..|front|] == front;
    assert directories != [] ==> (front + name)[..|front| - 1] == Join(directories);
    assert |name| > 4 ==> front + name[4..] == Join(directories + [name[4..]]);
  }

  /** The path that a marker removes is a normal path if and only if what follows ".wh." is not "..", and is
      "." only at the top. */
  lemma WhiteoutIsNormal(directories: seq<seq<u8>>, name: seq<u8>)
    requires AllPlain(directories)
    requires IsPlain(name) && name != OPAQUE_NAME && WHITEOUT_PREFIX <= name && |name| > 4
    ensures WhiteoutOf(Join(directories + [name])) == Some((Remove, Join(directories + [name[4..]])))
    ensures IsNormal(Join(directories + [name[4..]]))
        <==> name[4..] != DOT_DOT && (name[4..] == [DOT] ==> directories == [])
  {
    hide OPAQUE_NAME, WHITEOUT_PREFIX, BaseAt, Normalized, Join, Split, Kept;
    WhiteoutNames(directories, name);
    assert forall b :: b in name[4..] ==> b in name;
    SiblingIsNormal(directories, name[4..]);
  }

  lemma SiblingIsNormal(directories: seq<seq<u8>>, last: seq<u8>)
    requires AllPlain(directories)
    requires last != [] && NoSlash(last) && 0 !in last
    ensures Split(Join(directories + [last])) == directories + [last]
    ensures IsNormal(Join(directories + [last])) <==> last != DOT_DOT && (last == [DOT] ==> directories == [])
  {
    hide Join, Split, Normalized;
    var parts := directories + [last];
    forall k | 0 <= k < |parts|
      ensures NoSlash(parts[k])
    {
      assert k < |directories| ==> IsPlain(directories[k]);
    }
    SplitInvertsJoin(parts);
    NormalForm(Join(parts));
    DotParts();
    assert parts[|directories|] == last;
    assert directories == [] ==> parts == [last];
    if last == [DOT] && directories == [] {
      JoinInvertsSplit([DOT]);
    }
  }

  lemma DotParts()
    ensures Split([DOT]) == [[DOT]]
  {
    assert FirstOf([DOT], SLASH) == 1;
  }

  /** What is known of the path of any whiteout: its directories are plain, so that only its last component can
      keep it from being normal. */
  ghost predicate WhiteoutPath(path: seq<u8>)
  {
    var parts := Split(path);
    var last := parts[|parts| - 1];
    && AllPlain(parts[..|parts| - 1])
    && last != [] && 0 !in last
    && (IsNormal(path) <==> last != DOT_DOT && (last == [DOT] ==> |parts| == 1))
  }

  /** A marker at a normal path is about such a path, or, if it is opaque, about a normal path. */
  lemma WhiteoutKeepsDirectories(path: seq<u8>)
    requires IsNormal(path) && WhiteoutOf(path).Some?
    ensures
      var (mark, about) := WhiteoutOf(path).value;
      if mark == Opaque then IsNormal(about) else WhiteoutPath(about)
  {
    hide Split, Join, Normalized, BaseAt, OPAQUE_NAME, WHITEOUT_PREFIX, WhiteoutOf;
    NormalForm(path);
    JoinInvertsSplit(path);
    if path == [DOT] {
      DotIsNoMarker();
    } else {
      var parts := Split(path);
      var directories, name := parts[..|parts| - 1], parts[|parts| - 1];
      assert parts == directories + [name];
      assert IsPlain(name);
      WhiteoutNames(directories, name);
      MarkerSizes();
      if name == OPAQUE_NAME {
        DotIsNormal();
        if directories != [] {
          PlainIsNormal(directories);
        }
      } else {
        assert forall b :: b in name[4..] ==> b in name;
        SiblingIsNormal(directories, name[4..]);
      }
    }
  }

  lemma DotIsNoMarker()
    ensures WhiteoutOf([DOT]) == None
  {
    BaseOfJoin([], [DOT]);
    assert [] + [DOT] == [DOT] && [DOT][0..] == [DOT];
  }

  /** ".wh..." is a normal path, and the path that it removes leaves the archive. */
  lemma MarkerLeavesRoot()
    ensures
      var path := WHITEOUT_PREFIX + DOT_DOT;
      IsNormal(path) && WhiteoutOf(path) == Some((Remove, DOT_DOT)) && !IsNormal(DOT_DOT)
  {
    hide Split, Normalized, WhiteoutOf;
    var name := WHITEOUT_PREFIX + DOT_DOT;
    assert |name| == 6 && name[4..] == DOT_DOT && IsPlain(name);
    assert [] + [name] == [name] && [] + [DOT_DOT] == [DOT_DOT];
    WhiteoutIsNormal([], name);
    PlainIsNormal([name]);
  }

  /** ".wh.." below a directory is a normal path too, and the path that it removes is "." below the directory. */
  lemma MarkerNamesDirectory(directory: seq<u8>)
    requires IsPlain(directory)
    ensures
      var path := directory + [SLASH] + (WHITEOUT_PREFIX + [DOT]);
      && IsNormal(path) && WhiteoutOf(path) == Some((Remove, directory + [SLASH] + [DOT]))
      && !IsNormal(directory + [SLASH] + [DOT])
  {
    hide Split, Normalized, WhiteoutOf;
    var name := WHITEOUT_PREFIX + [DOT];
    assert |name| == 5 && name[4..] == [DOT] && IsPlain(name);
    assert [directory] + [name] == [directory, name];
    WhiteoutIsNormal([directory], name);
    PlainIsNormal([directory, name]);
    JoinAppend([directory], name);
    JoinAppend([directory], [DOT]);
  }

  /** Turns the path of a marker into the path that it is about, in place. */
  method TakeWhiteout(path: array<u8>, length: nat) returns (mark: Option<Mark>, after: nat)
    requires length <= path.Length
    modifies path
    ensures after <= length
    ensures
      match WhiteoutOf(old(path[..length]))
      case None => mark == None && after == length && path[..length] == old(path[..length])
      case Some((m, about)) => mark == Some(m) && after == |about| && after <= path.Length && path[..after] == about
  {
    hide BaseAt, OPAQUE_NAME, WHITEOUT_PREFIX;
    MarkerSizes();
    ghost var whole := path[..length];
    var base := BaseAt(path[..length]);
    var name := path[base..length];
    assert whole[base..] == name;
    if name == OPAQUE_NAME {
      if base == 0 {
        path[0] := DOT;
        after := 1;
        assert path[..1] == [DOT];
      } else {
        after := base - 1;
        assert path[..base - 1] == whole[..base - 1];
      }
      return Some(Opaque), after;
    }
    if !(WHITEOUT_PREFIX <= name) || |name| <= 4 {
      return None, length;
    }
    assert name[4..] == path[base + 4..length];
    CopyWithin(path, base + 4, length, base);
    after := length - 4;
    assert path[..base] == whole[..base];
    assert path[..after] == path[..base] + path[base..after];
    mark := Some(Remove);
  }

  lemma MarkerSizes()
    ensures |OPAQUE_NAME| == 12 && |WHITEOUT_PREFIX| == 4
  {
  }
}
