/** Pages, cursors and links (src/server.rs lines 123-145, 226-291 and 323-360,
    src/buffer.rs lines 5-13). Following the links from the first page on visits
    every name of the store exactly once, in order. */
module RegistryPages {
  import opened Numbers
  import opened Results
  import opened Concatenation
  import opened AsciiText
  import opened RegistryListing
  import opened Utf8Text

  const AMPERSAND: u8 := 0x26
  const PERCENT: u8 := 0x25
  const PLUS: u8 := 0x2b
  const EQUALS: u8 := 0x3d
  const QUOTE: u8 := 0x22
  const COMMA: u8 := 0x2c
  const SPACE: u8 := 0x20
  const QUESTION: u8 := 0x3f
  const GREATER: u8 := 0x3e
  const CURSOR_SIZE: nat := 256

  // ----- the response body

  function Quoted(page: seq<Name>): seq<u8>
  {
    if page == [] then []
    else Quoted(page[..|page| - 1]) + (if |page| == 1 then [] else [COMMA]) + ([QUOTE] + page[|page| - 1] + [QUOTE])
  }

  /** `prefix` opens the object and the list. */
  function PageText(prefix: seq<u8>, page: seq<Name>): seq<u8>
  {
    prefix + Quoted(page) + [0x5d, 0x7d]
  }

  lemma QuotedNext(list: seq<Name>, count: nat)
    requires count < |list|
    ensures Quoted(list[..count + 1]) ==
      Quoted(list[..count]) + (if count == 0 then [] else [COMMA]) + ([QUOTE] + list[count] + [QUOTE])
  {
    assert list[..count + 1][..count] == list[..count];
  }

  lemma {:induction false} QuotedGrows(list: seq<Name>, a: nat, b: nat)
    requires a <= b <= |list|
    ensures |Quoted(list[..a])| <= |Quoted(list[..b])|
  {
    if a < b {
      QuotedGrows(list, a, b - 1);
      QuotedNext(list, b - 1);
    }
  }

  /** Checked writes into the caller's scratch buffer. */
  class BufferWriter {
    const buffer: array<u8>
    var length: nat

    ghost predicate Valid()
      reads this
    {
      length <= buffer.Length
    }

    ghost function Contents(): seq<u8>
      reads this, buffer
      requires Valid()
    {
      buffer[..length]
    }

    constructor (buffer: array<u8>)
      ensures Valid() && this.buffer == buffer && Contents() == []
    {
      this.buffer := buffer;
      length := 0;
    }

    method WriteStr(bytes: seq<u8>) returns (fits: bool)
      requires Valid()
      modifies this, buffer
      ensures Valid()
      ensures fits <==> |old(Contents())| + |bytes| <= buffer.Length
      ensures Contents() == if fits then old(Contents()) + bytes else old(Contents())
    {
      if length + |bytes| > buffer.Length {
        return false;
      }
      for i := 0 to |bytes|
        modifies buffer
        invariant forall k :: 0 <= k < length ==> buffer[k] == old(buffer[k])
        invariant forall k :: length <= k < length + i ==> buffer[k] == bytes[k - length]
      {
        buffer[length + i] := bytes[i];
      }
      length := length + |bytes|;
      fits := true;
    }
  }

  /** The names of a page: the first n of what is to come. */
  function Page(list: seq<Name>, n: nat): seq<Name>
  {
    if n < |list| then list[..n] else list
  }

  /** The cursor of the next page, if there is one; a page of none has none. */
  function NextCursor(list: seq<Name>, n: nat): Option<Name>
  {
    if 0 < n < |list| then Some(list[n - 1]) else None
  }

  /** One page: its body in the scratch buffer, and the cursor of the next page. `list` is what the
      store holds behind the cursor; nothing but the order of names decides what is on the page. */
  method ListPage(names: seq<Name>, n: nat, last: Name, prefix: seq<u8>, scratch: array<u8>, ghost list: seq<Name>)
    returns (r: Result<(nat, Option<Name>), ()>)
    requires Lists(names, last, list)
    modifies scratch
    ensures
      var text := PageText(prefix, Page(list, n));
      if |text| > scratch.Length then r == Err(())
      else r == Ok((|text|, NextCursor(list, n))) && scratch[..|text|] == text
  {
    hide Lists, Less, IsNext, Quoted, BufferWriter.Contents;
    var output := new BufferWriter(scratch);
    ghost var text := PageText(prefix, Page(list, n));
    assert [] + prefix == prefix;
    var fits := output.WriteStr(prefix);
    if !fits {
      return Err(());
    }
    var previous, count, next, going := last, 0, None, n != 0;
    NothingQuoted(list);
    assert list[0..] == list;
    assert output.Contents() + [] == output.Contents();
    while going
      invariant output.Valid() && output.buffer == scratch && fresh(output)
      invariant count <= |list| && count <= n && Lists(names, previous, list[count..])
      invariant count > 0 ==> previous == list[count - 1]
      invariant output.Contents() == prefix + Quoted(list[..count])
      invariant going ==> n != 0 && next == None
      invariant !going ==> list[..count] == Page(list, n) && next == NextCursor(list, n)
      decreases going, |list| - count
    {
      var found := SelectNext(names, previous);
      EndOrNext(names, previous, list[count..], found);
      if found.None? {
        assert list[..count] == list;
        going := false;
      } else if count == n {
        next := Some(previous);
        going := false;
      } else {
        var name := found.value;
        NextIsFirst(names, previous, list, count, name);
        PageHolds(prefix, list, n, count);
        fits := WriteName(output, name, count, prefix, list);
        if !fits {
          return Err(());
        }
        previous := name;
        count := count + 1;
      }
    }
    fits := output.WriteStr([0x5d, 0x7d]);
    if !fits {
      return Err(());
    }
    Held(output);
    r := Ok((output.length, next));
  }

  lemma Held(output: BufferWriter)
    requires output.Valid()
    ensures output.buffer[..output.length] == output.Contents()
  {
  }

  /** One more name, behind a comma unless it is the first. */
  method WriteName(output: BufferWriter, name: Name, count: nat, ghost prefix: seq<u8>, ghost list: seq<Name>)
    returns (fits: bool)
    requires output.Valid() && count < |list| && name == list[count]
        && output.Contents() == prefix + Quoted(list[..count])
    modifies output, output.buffer
    ensures output.Valid()
    ensures fits <==> |prefix| + |Quoted(list[..count + 1])| <= output.buffer.Length
    ensures fits ==> output.Contents() == prefix + Quoted(list[..count + 1])
  {
    hide Quoted;
    QuotedNext(list, count);
    Regroup(prefix, Quoted(list[..count]), if count == 0 then [] else [COMMA], [QUOTE] + name + [QUOTE]);
    if count != 0 {
      fits := output.WriteStr([COMMA]);
      if !fits {
        return false;
      }
    }
    fits := output.WriteStr([QUOTE] + name + [QUOTE]);
  }

  lemma NothingQuoted(list: seq<Name>)
    ensures Quoted(list[..0]) == []
  {
  }

  lemma Regroup(prefix: seq<u8>, before: seq<u8>, comma: seq<u8>, name: seq<u8>)
    ensures ((prefix + before) + comma) + name == prefix + (before + comma + name)
    ensures (prefix + before) + [] == prefix + before
  {
  }

  lemma EndOrNext(names: seq<Name>, previous: Name, rest: seq<Name>, found: Option<Name>)
    requires Lists(names, previous, rest)
    requires
      match found
      case None => forall y :: y in names ==> !Less(previous, y)
      case Some(x) => IsNext(names, previous, x)
    ensures found.None? <==> rest == []
  {
    hide Less;
    assert rest == [] || rest[0] in rest;
    assert found.Some? ==> found.value in rest;
  }

  lemma NextIsFirst(names: seq<Name>, previous: Name, list: seq<Name>, count: nat, name: Name)
    requires count <= |list| && Lists(names, previous, list[count..]) && IsNext(names, previous, name)
    ensures count < |list| && name == list[count] && Lists(names, name, list[count + 1..])
  {
    hide Less;
    var rest := list[count..];
    assert name in rest;
    FirstIsNext(names, previous, rest);
    NextIsUnique(names, previous, name, rest[0]);
    RestLists(names, previous, rest);
    assert rest[1..] == list[count + 1..];
  }

  /** If not even the next name fits, the page does not. */
  lemma PageHolds(prefix: seq<u8>, list: seq<Name>, n: nat, count: nat)
    requires count < |list| && count < n
    ensures |PageText(prefix, Page(list, n))| >= |prefix| + |Quoted(list[..count + 1])| + 2
  {
    QuotedGrows(list, count + 1, if n < |list| then n else |list|);
    assert list[..|list|] == list;
  }

  // ----- cursors

  predicate IsUnreserved(byte: u8)
  {
    || 0x30 <= byte <= 0x39 || 0x41 <= byte <= 0x5a || 0x61 <= byte <= 0x7a
    || byte == 0x2d || byte == 0x2e || byte == 0x5f || byte == 0x7e
  }

  function HexDigit(value: nat): u8
    requires value < 16
  {
    if value < 10 then 0x30 + value else 0x41 + (value - 10)
  }

  function EscapeByte(byte: u8): seq<u8>
  {
    if IsUnreserved(byte) then [byte] else [PERCENT, HexDigit(byte / 16), HexDigit(byte % 16)]
  }

  function Escape(text: seq<u8>): seq<u8>
  {
    if text == [] then [] else EscapeByte(text[0]) + Escape(text[1..])
  }

  /** The first byte that an escaped text stands for, and how much of the text that takes. */
  function UnescapeByte(text: seq<u8>): (r: Option<(u8, nat)>)
    requires text != []
    ensures r.Some? ==> 0 < r.value.1 <= |text|
  {
    if text[0] == PERCENT then
      if |text| < 3 || HexValue(text[1]).None? || HexValue(text[2]).None? then None
      else Some((HexValue(text[1]).value * 16 + HexValue(text[2]).value, 3))
    else Some((if text[0] == PLUS then SPACE else text[0], 1))
  }

  /** Into limited room. */
  function Unescape(text: seq<u8>, room: nat): Option<seq<u8>>
    decreases |text|
  {
    if text == [] then Some([])
    else
      match UnescapeByte(text)
      case None => None
      case Some((byte, used)) =>
        if room == 0 then None
        else
          match Unescape(text[used..], room - 1)
          case None => None
          case Some(later) => Some([byte] + later)
  }

  lemma HexRoundTrip(value: nat)
    requires value < 16
    ensures HexValue(HexDigit(value)) == Some(value)
  {
  }

  lemma EscapedByte(byte: u8, tail: seq<u8>)
    ensures
      var text := EscapeByte(byte) + tail;
      text != [] && UnescapeByte(text) == Some((byte, |EscapeByte(byte)|)) && text[|EscapeByte(byte)|..] == tail
  {
    HexRoundTrip(byte / 16);
    HexRoundTrip(byte % 16);
  }

  /** Escaping is undone, if there is room for the text. */
  lemma {:induction false} EscapeRoundTrip(text: seq<u8>, room: nat)
    ensures Unescape(Escape(text), room) == if |text| <= room then Some(text) else None
    decreases |text|
  {
    hide EscapeByte, UnescapeByte;
    if text != [] {
      EscapedByte(text[0], Escape(text[1..]));
      if room > 0 {
        EscapeRoundTrip(text[1..], room - 1);
        assert text == [text[0]] + text[1..];
      }
    }
  }

  /** Escaped text has no meaning of its own in a query or a link. */
  lemma {:induction false} EscapedIsPlain(text: seq<u8>)
    ensures AMPERSAND !in Escape(text) && EQUALS !in Escape(text) && GREATER !in Escape(text)
  {
    if text != [] {
      EscapedIsPlain(text[1..]);
      EscapedByteIsPlain(text[0]);
    }
  }

  lemma EscapedByteIsPlain(byte: u8)
    ensures AMPERSAND !in EscapeByte(byte) && EQUALS !in EscapeByte(byte) && GREATER !in EscapeByte(byte)
  {
  }

  // ----- queries

  /** "n" and "last" */
  const N_KEY: seq<u8> := [0x6e]
  const LAST_KEY: seq<u8> := [0x6c, 0x61, 0x73, 0x74]

  datatype Seen = Seen(n: Option<nat>, last: Option<seq<u8>>)

  /** A parameter may be given once; others are ignored. */
  function TakeParameter(seen: Seen, parameter: seq<u8>): Option<Seen>
  {
    var at := FirstOf(parameter, EQUALS);
    var key := parameter[..at];
    var value := if at < |parameter| then parameter[at + 1..] else [];
    if key == N_KEY then
      if Decimal(value).None? || seen.n.Some? then None else Some(seen.(n := Some(Decimal(value).value)))
    else if key == LAST_KEY then
      if seen.last.Some? then None else Some(seen.(last := Some(value)))
    else Some(seen)
  }

  function TakeQuery(seen: Seen, query: seq<u8>): Option<Seen>
    decreases |query|
  {
    var at := FirstOf(query, AMPERSAND);
    match if at == 0 then Some(seen) else TakeParameter(seen, query[..at])
    case None => None
    case Some(next) => if at < |query| then TakeQuery(next, query[at + 1..]) else Some(next)
  }

  /** How many names a query asks for, and behind which one; without a number, as many as there are. */
  function PaginationOf(query: seq<u8>): Option<(nat, Name)>
  {
    match TakeQuery(Seen(None, None), query)
    case None => None
    case Some(seen) =>
      match Unescape(if seen.last.Some? then seen.last.value else [], CURSOR_SIZE)
      case None => None
      case Some(last) => if IsUtf8(last) then Some((if seen.n.Some? then seen.n.value else U64_MAX, last)) else None
  }

  method Pagination(query: seq<u8>, cursor: array<u8>) returns (r: Option<(nat, Name)>)
    requires cursor.Length == CURSOR_SIZE
    modifies cursor
    ensures r == PaginationOf(query)
  {
    hide TakeParameter, UnescapeByte, IsUtf8;
    var seen, rest, more := Seen(None, None), query, true;
    while more
      invariant TakeQuery(Seen(None, None), query) == if more then TakeQuery(seen, rest) else Some(seen)
      decreases more, |rest|
    {
      var at := FirstOf(rest, AMPERSAND);
      if at != 0 {
        var taken := TakeParameter(seen, rest[..at]);
        if taken.None? {
          return None;
        }
        seen := taken.value;
      }
      more, rest := at < |rest|, if at < |rest| then rest[at + 1..] else rest;
    }
    var text := if seen.last.Some? then seen.last.value else [];
    var len: nat := 0;
    ghost var whole := Unescape(text, CURSOR_SIZE);
    assert cursor[..0] == [];
    assert whole.Some? ==> [] + whole.value == whole.value;
    while text != []
      invariant len <= CURSOR_SIZE
      invariant
        match Unescape(text, CURSOR_SIZE - len)
        case None => whole == None
        case Some(later) => whole == Some(cursor[..len] + later)
      decreases |text|
    {
      var byte := UnescapeByte(text);
      if byte.None? || len == CURSOR_SIZE {
        return None;
      }
      ghost var before := cursor[..len];
      cursor[len] := byte.value.0;
      assert cursor[..len + 1] == before + [byte.value.0];
      if Unescape(text[byte.value.1..], CURSOR_SIZE - len - 1).Some? {
        Associate(before, [byte.value.0], Unescape(text[byte.value.1..], CURSOR_SIZE - len - 1).value);
      }
      len := len + 1;
      text := text[byte.value.1..];
    }
    assert cursor[..len] + [] == cursor[..len];
    r := if IsUtf8(cursor[..len]) then Some((if seen.n.Some? then seen.n.value else U64_MAX, cursor[..len])) else None;
  }

  // ----- links

  function SizeParameter(n: nat): seq<u8>
  {
    N_KEY + [EQUALS] + Digits(n)
  }

  function LastParameter(last: Name): seq<u8>
  {
    LAST_KEY + [EQUALS] + Escape(last)
  }

  /** The query of a link to the next page. */
  function LinkQuery(n: nat, last: Name): seq<u8>
  {
    SizeParameter(n) + [AMPERSAND] + LastParameter(last)
  }

  /** The Link header: the path and query in angle brackets, and the relation. */
  function FormatLink(path: seq<u8>, n: nat, last: Name): seq<u8>
  {
    [0x3c] + path + [QUESTION] + LinkQuery(n, last)
      + [GREATER, 0x3b, 0x20, 0x72, 0x65, 0x6c, 0x3d, 0x22, 0x6e, 0x65, 0x78, 0x74, 0x22]
  }

  /** The query that a Link header leads to: what is between the question mark and the closing bracket. */
  function QueryOf(header: seq<u8>): Option<seq<u8>>
  {
    var start := FirstOf(header, QUESTION);
    if start == |header| then None
    else
      var target := header[start + 1..];
      var end := FirstOf(target, GREATER);
      if end == |target| then None else Some(target[..end])
  }

  /** A client finds the query in the header, whatever the name is. */
  lemma HeaderLeads(path: seq<u8>, n: nat, last: Name)
    requires QUESTION !in path
    ensures QueryOf(FormatLink(path, n, last)) == Some(LinkQuery(n, last))
  {
    hide LinkQuery;
    var query := LinkQuery(n, last);
    var back := [0x3b, 0x20, 0x72, 0x65, 0x6c, 0x3d, 0x22, 0x6e, 0x65, 0x78, 0x74, 0x22];
    assert FormatLink(path, n, last) == [0x3c] + path + [QUESTION] + query + ([GREATER] + back);
    QueryIsPlain(n, last);
    FindQuery([0x3c] + path, query, back);
  }

  lemma FindQuery(front: seq<u8>, query: seq<u8>, back: seq<u8>)
    requires QUESTION !in front && GREATER !in query
    ensures QueryOf(front + [QUESTION] + query + ([GREATER] + back)) == Some(query)
  {
    hide FirstOf;
    var header := front + [QUESTION] + query + ([GREATER] + back);
    var target := query + ([GREATER] + back);
    assert forall k :: 0 <= k < |front| ==> header[k] == front[k] && front[k] in front;
    assert header[|front|] == QUESTION;
    FirstIs(header, QUESTION, |front|);
    assert header[|front| + 1..] == target;
    assert forall k :: 0 <= k < |query| ==> target[k] == query[k] && query[k] in query;
    FirstIs(target, GREATER, |query|);
    assert target[..|query|] == query;
  }

  lemma QueryIsPlain(n: nat, last: Name)
    ensures GREATER !in LinkQuery(n, last)
  {
    hide Digits, Escape;
    EscapedIsPlain(last);
    assert forall b :: b in Digits(n) ==> IsDigit(b);
  }

  lemma SizeTaken(seen: Seen, n: nat)
    requires seen.n.None? && n <= U64_MAX
    ensures TakeParameter(seen, SizeParameter(n)) == Some(seen.(n := Some(n)))
    ensures AMPERSAND !in SizeParameter(n) && SizeParameter(n) != []
  {
    hide Digits;
    var text := SizeParameter(n);
    FirstIs(text, EQUALS, 1);
    assert text[..1] == N_KEY && text[2..] == Digits(n);
    DecimalOfDigits(n);
    assert forall b :: b in Digits(n) ==> IsDigit(b);
  }

  lemma LastTaken(seen: Seen, last: Name)
    requires seen.last.None?
    ensures TakeParameter(seen, LastParameter(last)) == Some(seen.(last := Some(Escape(last))))
    ensures AMPERSAND !in LastParameter(last) && LastParameter(last) != []
  {
    hide Escape;
    var text := LastParameter(last);
    FirstIs(text, EQUALS, 4);
    assert text[..4] == LAST_KEY && text[5..] == Escape(last);
    EscapedIsPlain(last);
  }

  lemma OneParameter(seen: Seen, parameter: seq<u8>)
    requires AMPERSAND !in parameter && parameter != []
    ensures TakeQuery(seen, parameter) == TakeParameter(seen, parameter)
  {
    hide TakeParameter;
    assert FirstOf(parameter, AMPERSAND) == |parameter|;
    assert parameter[..|parameter|] == parameter;
  }

  lemma TwoParameters(seen: Seen, parameter: seq<u8>, query: seq<u8>)
    requires AMPERSAND !in parameter && parameter != []
    ensures TakeQuery(seen, parameter + [AMPERSAND] + query) ==
      match TakeParameter(seen, parameter)
      case None => None
      case Some(next) => TakeQuery(next, query)
  {
    hide TakeParameter;
    var text := parameter + [AMPERSAND] + query;
    assert forall k :: 0 <= k < |parameter| ==> text[k] == parameter[k] && parameter[k] in parameter;
    FirstIs(text, AMPERSAND, |parameter|);
    assert text[..|parameter|] == parameter && text[|parameter| + 1..] == query;
  }

  /** A link asks for the same number of names behind the same name, exactly if the name is text that fits the
      cursor. */
  lemma LinkRoundTrip(n: nat, last: Name)
    requires n <= U64_MAX
    ensures PaginationOf(LinkQuery(n, last)) == if |last| <= CURSOR_SIZE && IsUtf8(last) then Some((n, last)) else None
  {
    hide TakeParameter, TakeQuery, SizeParameter, LastParameter, Escape, Unescape, IsUtf8;
    var nothing := Seen(None, None);
    SizeTaken(nothing, n);
    TwoParameters(nothing, SizeParameter(n), LastParameter(last));
    LastTaken(nothing.(n := Some(n)), last);
    OneParameter(nothing.(n := Some(n)), LastParameter(last));
    EscapeRoundTrip(last, CURSOR_SIZE);
  }

  /** A name of 257 letters is listed, but the link to it is a bad request. */
  lemma LongName() returns (name: Name)
    ensures |name| == 257 && IsUtf8(name) && PaginationOf(LinkQuery(1, name)) == None
  {
    hide IsUtf8, PaginationOf, LinkQuery;
    name := seq(257, _ => 0x61);
    AsciiIsUtf8(name);
    LinkRoundTrip(1, name);
  }

  lemma FirstQuery(n: nat)
    requires n <= U64_MAX
    ensures PaginationOf(SizeParameter(n)) == Some((n, []))
  {
    hide TakeParameter, TakeQuery, SizeParameter;
    SizeTaken(Seen(None, None), n);
    OneParameter(Seen(None, None), SizeParameter(n));
    assert Unescape([], CURSOR_SIZE) == Some([]);
  }

  // ----- requests

  /** What the store holds behind a name: there is exactly one such list. */
  ghost function Behind(names: seq<Name>, previous: Name): (list: seq<Name>)
    ensures Lists(names, previous, list)
  {
    ListExists(names, previous);
    var list :| Lists(names, previous, list);
    list
  }

  lemma ListExists(names: seq<Name>, previous: Name)
    ensures exists list :: Lists(names, previous, list)
  {
    hide Lists;
    var list := ListingOf(names, previous);
  }

  datatype Answer = BadRequest | Listing(n: nat, length: nat, next: Option<Name>)

  /** A listing request: malformed queries are bad requests; a scratch buffer that is too small is an error. */
  method ServeListing(names: seq<Name>, query: seq<u8>, prefix: seq<u8>, scratch: array<u8>)
    returns (r: Result<Answer, ()>)
    modifies scratch
    ensures
      match PaginationOf(query)
      case None => r == Ok(BadRequest)
      case Some((n, last)) =>
        var list := Behind(names, last);
        var text := PageText(prefix, Page(list, n));
        if |text| > scratch.Length then r == Err(())
        else r == Ok(Listing(n, |text|, NextCursor(list, n))) && scratch[..|text|] == text
  {
    hide Lists, PaginationOf, Quoted;
    var cursor := new u8[CURSOR_SIZE];
    var pagination := Pagination(query, cursor);
    if pagination.None? {
      return Ok(BadRequest);
    }
    var (n, last) := pagination.value;
    var listed :- ListPage(names, n, last, prefix, scratch, Behind(names, last));
    r := Ok(Listing(n, listed.0, listed.1));
  }

  // ----- following the links

  function Flat(pages: seq<seq<Name>>): seq<Name>
  {
    if pages == [] then [] else Flat(pages[..|pages| - 1]) + pages[|pages| - 1]
  }

  /** Every page but the last is full. */
  ghost predicate Paged(pages: seq<seq<Name>>, n: nat)
  {
    pages != [] && |pages[|pages| - 1]| <= n && forall k :: 0 <= k < |pages| - 1 ==> |pages[k]| == n
  }

  function Weight(page: seq<Name>): nat
  {
    if page == [] then 0 else Weight(page[..|page| - 1]) + |page[|page| - 1]| + 3
  }

  lemma {:induction false} QuotedWeight(page: seq<Name>)
    ensures |Quoted(page)| == if page == [] then 0 else Weight(page) - 1
  {
    if page != [] {
      QuotedWeight(page[..|page| - 1]);
    }
  }

  lemma {:induction false} WeightConcat(a: seq<Name>, b: seq<Name>)
    ensures Weight(a + b) == Weight(a) + Weight(b)
  {
    if b == [] {
      assert a + b == a;
    } else {
      assert (a + b)[..|a + b| - 1] == a + b[..|b| - 1];
      WeightConcat(a, b[..|b| - 1]);
    }
  }

  /** No page is longer than the list with everything on it. */
  lemma PageIsShorter(prefix: seq<u8>, front: seq<Name>, page: seq<Name>, later: seq<Name>)
    ensures |PageText(prefix, page)| <= |PageText(prefix, front + page + later)|
  {
    hide Quoted;
    QuotedWeight(page);
    QuotedWeight(front + page + later);
    WeightConcat(front, page);
    WeightConcat(front + page, later);
  }

  /** How a client's crawl ends: behind the last page, with a bad request, or with a page that has no room. */
  datatype Ending = Exhausted | Refused | Overfull

  /** The k-th page of a list. */
  function PageAt(list: seq<Name>, n: nat, k: nat): seq<Name>
  {
    if k * n <= |list| then Page(list[k * n..], n) else []
  }

  /** The buffer has room for the k-th page, if there is one. */
  ghost predicate PageFits(prefix: seq<u8>, list: seq<Name>, n: nat, k: nat, room: nat)
  {
    k == 0 || k * n < |list| ==> |PageText(prefix, PageAt(list, n, k))| <= room
  }

  /** The cursor that leads to the k-th page, if there is one, is text that fits. */
  ghost predicate CursorFits(list: seq<Name>, n: nat, k: nat)
  {
    0 < k * n < |list| ==> |list[k * n - 1]| <= CURSOR_SIZE && IsUtf8(list[k * n - 1])
  }

  /** Every page and every cursor fits. */
  ghost predicate Passable(prefix: seq<u8>, list: seq<Name>, n: nat, room: nat)
  {
    forall k: nat :: PageFits(prefix, list, n, k, room) && CursorFits(list, n, k)
  }

  /** Behind the last page there is nothing that could fail. */
  lemma NothingBehind(prefix: seq<u8>, list: seq<Name>, n: nat, k: nat, room: nat, last: nat)
    requires 0 < last <= k && |list| <= last * n
    ensures PageFits(prefix, list, n, k, room) && CursorFits(list, n, k)
  {
    MulMonotone(last, k, n);
  }

  /** A buffer for everything at once, and names that are cursors, are enough. */
  lemma RoomIsEnough(prefix: seq<u8>, list: seq<Name>, n: nat, room: nat)
    requires |PageText(prefix, list)| <= room && forall x :: x in list ==> |x| <= CURSOR_SIZE && IsUtf8(x)
    ensures Passable(prefix, list, n, room)
  {
    hide PageText, IsUtf8, PageAt;
    forall k: nat
      ensures PageFits(prefix, list, n, k, room) && CursorFits(list, n, k)
    {
      var at := k * n;
      if at <= |list| {
        PageIsPart(list, n, k);
        PageIsShorter(prefix, list[..at], PageAt(list, n, k), list[at + |PageAt(list, n, k)|..]);
      }
    }
  }

  lemma PageIsPart(list: seq<Name>, n: nat, k: nat)
    requires k * n <= |list|
    ensures k * n + |PageAt(list, n, k)| <= |list|
    ensures list[..k * n] + PageAt(list, n, k) + list[k * n + |PageAt(list, n, k)|..] == list
  {
    var at := k * n;
    var page := Page(list[at..], n);
    assert list[at..][..|page|] == page;
  }

  /** The first requests of a crawl have been answered with these pages. */
  ghost predicate Crawled(prefix: seq<u8>, list: seq<Name>, n: nat, room: nat, bodies: seq<seq<u8>>,
      pages: seq<seq<Name>>)
  {
    && |bodies| == |pages|
    && (forall k :: 0 <= k < |pages| ==> pages[k] == PageAt(list, n, k) && bodies[k] == PageText(prefix, pages[k]))
    && forall k :: 0 <= k < |pages| ==> PageFits(prefix, list, n, k, room) && CursorFits(list, n, k)
  }

  lemma CrawledMore(prefix: seq<u8>, list: seq<Name>, n: nat, room: nat, bodies: seq<seq<u8>>, pages: seq<seq<Name>>)
    requires Crawled(prefix, list, n, room, bodies, pages)
    requires PageFits(prefix, list, n, |pages|, room) && CursorFits(list, n, |pages|)
    ensures
      var page := PageAt(list, n, |pages|);
      Crawled(prefix, list, n, room, bodies + [PageText(prefix, page)], pages + [page])
  {
    hide PageAt, PageFits, CursorFits, PageText;
  }

  /** A request for the page that follows these: what is left to list, and what the query asks for. */
  ghost predicate Asks(names: seq<Name>, list: seq<Name>, n: nat, pages: seq<seq<Name>>, last: Name, query: seq<u8>)
  {
    var at := |pages| * n;
    && at <= |list| && (at == |list| ==> pages == []) && Flat(pages) == list[..at] && Behind(names, last) == list[at..]
    && (forall k :: 0 <= k < |pages| ==> |pages[k]| == n)
    && PaginationOf(query) == if CursorFits(list, n, |pages|) then Some((n, last)) else None
  }

  lemma AsksFirst(names: seq<Name>, n: nat)
    requires n <= U64_MAX
    ensures Asks(names, Behind(names, []), n, [], [], SizeParameter(n))
  {
    hide SizeParameter, PaginationOf;
    FirstQuery(n);
    var list := Behind(names, []);
    assert list[0..] == list && list[..0] == [];
  }

  /** The last page. */
  lemma AsksLast(names: seq<Name>, list: seq<Name>, n: nat, pages: seq<seq<Name>>, last: Name, query: seq<u8>)
    requires Asks(names, list, n, pages, last, query) && NextCursor(Behind(names, last), n) == None && 0 < n
    ensures
      var page := PageAt(list, n, |pages|);
      && page == Page(Behind(names, last), n) && Paged(pages + [page], n) && Flat(pages + [page]) == list
      && |list| <= |pages + [page]| * n
  {
    hide PaginationOf, CursorFits;
    var page := PageAt(list, n, |pages|);
    FlatNext(pages, page);
    MulDistributive(n, |pages|, 1);
  }

  /** A page with a link, and the request that the link leads to. */
  lemma AsksNext(names: seq<Name>, list: seq<Name>, n: nat, pages: seq<seq<Name>>, last: Name, query: seq<u8>,
      path: seq<u8>)
    requires Asks(names, list, n, pages, last, query) && NextCursor(Behind(names, last), n).Some? && n <= U64_MAX
        && QUESTION !in path
    ensures
      var page := PageAt(list, n, |pages|);
      var next := NextCursor(Behind(names, last), n).value;
      && 0 < n && page == Page(Behind(names, last), n) && |pages| * n < |list|
      && QueryOf(FormatLink(path, n, next)).Some?
      && Asks(names, list, n, pages + [page], next, QueryOf(FormatLink(path, n, next)).value)
  {
    hide PaginationOf, Lists, LinkQuery, FormatLink, QueryOf, IsUtf8;
    var at, rest, page := |pages| * n, Behind(names, last), PageAt(list, n, |pages|);
    var next := rest[n - 1];
    FlatNext(pages, page);
    MulDistributive(n, |pages|, 1);
    PageParts(list, at, n);
    PageEnds(names, last, rest, n);
    LinkRoundTrip(n, next);
    HeaderLeads(path, n, next);
  }

  lemma PageParts(list: seq<Name>, at: nat, n: nat)
    requires at + n <= |list| && 0 < n
    ensures list[..at] + list[at..][..n] == list[..at + n] && list[at..][n..] == list[at + n..]
    ensures list[at..][n - 1] == list[at + n - 1]
  {
  }

  /** What a request of the crawl asks for, and when its page has room. */
  lemma AskedPage(names: seq<Name>, list: seq<Name>, n: nat, pages: seq<seq<Name>>, last: Name, query: seq<u8>,
      prefix: seq<u8>, room: nat)
    requires Asks(names, list, n, pages, last, query)
    ensures PaginationOf(query) == if CursorFits(list, n, |pages|) then Some((n, last)) else None
    ensures PageAt(list, n, |pages|) == Page(Behind(names, last), n)
    ensures PageFits(prefix, list, n, |pages|, room) <==> |PageText(prefix, Page(Behind(names, last), n))| <= room
  {
    hide PaginationOf, CursorFits, PageText, Page;
  }

  /** A client that follows the Link headers. It gets through if and only if every page fits the buffer and every
      name that becomes a cursor is text that fits it; and then, unless it asks for pages of none, they hold every
      name of the store exactly once, in ascending order. Otherwise it gets every page up to the first that fails,
      and the reason of that. */
  method Crawl(names: seq<Name>, n: nat, path: seq<u8>, prefix: seq<u8>, scratch: array<u8>)
    returns (bodies: seq<seq<u8>>, end: Ending, ghost pages: seq<seq<Name>>)
    requires n <= U64_MAX && QUESTION !in path
    modifies scratch
    ensures Crawled(prefix, Behind(names, []), n, scratch.Length, bodies, pages)
    ensures end == Exhausted <==> Passable(prefix, Behind(names, []), n, scratch.Length)
    ensures end == Exhausted && n > 0 ==>
      && Paged(pages, n) && Ascending(Flat(pages))
      && forall x :: x in Flat(pages) <==> x in names && x != []
    ensures end == Refused ==> !CursorFits(Behind(names, []), n, |pages|)
    ensures end == Overfull ==>
      CursorFits(Behind(names, []), n, |pages|) && !PageFits(prefix, Behind(names, []), n, |pages|, scratch.Length)
  {
    hide Lists, PageText, PaginationOf, FormatLink, QueryOf, SizeParameter, Page, PageAt, PageFits, CursorFits, Asks,
        Crawled, Paged, NextCursor, Flat;
    ghost var whole, last: Name := Behind(names, []), [];
    AsksFirst(names, n);
    var query := SizeParameter(n);
    bodies, pages, end := [], [], Exhausted;
    NothingCrawled(prefix, whole, n, scratch.Length);
    var going := true;
    while going
      invariant Crawled(prefix, whole, n, scratch.Length, bodies, pages)
      invariant going ==> end == Exhausted && Asks(names, whole, n, pages, last, query)
      invariant !going && end == Exhausted ==>
        pages != [] && (n > 0 ==> |whole| <= |pages| * n && Paged(pages, n) && Flat(pages) == whole)
      invariant end == Refused ==> !CursorFits(whole, n, |pages|)
      invariant end == Overfull ==>
        CursorFits(whole, n, |pages|) && !PageFits(prefix, whole, n, |pages|, scratch.Length)
      decreases going, |whole| - |pages| * n
    {
      AskedPage(names, whole, n, pages, last, query, prefix, scratch.Length);
      var answer := ServeListing(names, query, prefix, scratch);
      if answer.Err? {
        end, going := Overfull, false;
      } else if answer.value.BadRequest? {
        end, going := Refused, false;
      } else {
        var listing := answer.value;
        CrawledMore(prefix, whole, n, scratch.Length, bodies, pages);
        bodies := bodies + [scratch[..listing.length]];
        ghost var page := PageAt(whole, n, |pages|);
        if listing.next.None? {
          if n > 0 {
            AsksLast(names, whole, n, pages, last, query);
          }
          going := false;
        } else {
          AsksNext(names, whole, n, pages, last, query, path);
          MulDistributive(n, |pages|, 1);
          query, last := QueryOf(FormatLink(path, n, listing.next.value)).value, listing.next.value;
        }
        pages := pages + [page];
      }
    }
    EndDecides(prefix, whole, n, scratch.Length, bodies, pages, end);
    EverythingListed(names, whole);
  }

  /** A page of none is the only one, whichever it is called. */
  lemma SamePage(prefix: seq<u8>, list: seq<Name>, k: nat, room: nat)
    requires PageFits(prefix, list, 0, 0, room)
    ensures PageFits(prefix, list, 0, k, room) && CursorFits(list, 0, k)
  {
    hide PageText;
  }

  lemma NothingCrawled(prefix: seq<u8>, list: seq<Name>, n: nat, room: nat)
    ensures Crawled(prefix, list, n, room, [], [])
  {
  }

  /** A crawl that has come to its end has passed everything, and a crawl that has failed has found what does not
      fit. */
  lemma EndDecides(prefix: seq<u8>, list: seq<Name>, n: nat, room: nat, bodies: seq<seq<u8>>, pages: seq<seq<Name>>,
      end: Ending)
    requires Crawled(prefix, list, n, room, bodies, pages)
    requires end == Exhausted ==> pages != [] && (n > 0 ==> |list| <= |pages| * n)
    requires end != Exhausted ==> !CursorFits(list, n, |pages|) || !PageFits(prefix, list, n, |pages|, room)
    ensures end == Exhausted <==> Passable(prefix, list, n, room)
  {
    hide PageFits, CursorFits;
    if end == Exhausted {
      forall k: nat
        ensures PageFits(prefix, list, n, k, room) && CursorFits(list, n, k)
      {
        if n == 0 {
          SamePage(prefix, list, k, room);
        } else if k >= |pages| {
          NothingBehind(prefix, list, n, k, room, |pages|);
        }
      }
    }
  }

  lemma FlatNext(pages: seq<seq<Name>>, page: seq<Name>)
    ensures Flat(pages + [page]) == Flat(pages) + page
  {
    assert (pages + [page])[..|pages|] == pages;
  }

  /** The list behind the last name of a page is the rest of the list. */
  lemma {:induction false} PageEnds(names: seq<Name>, last: Name, list: seq<Name>, n: nat)
    requires Lists(names, last, list) && 0 < n < |list|
    ensures list[n - 1] in names && Behind(names, list[n - 1]) == list[n..]
  {
    hide Less;
    RestAfter(names, last, list, n);
    ListsIsUnique(names, list[n - 1], Behind(names, list[n - 1]), list[n..]);
    assert list[n - 1] in list;
  }

  lemma {:induction false} RestAfter(names: seq<Name>, last: Name, list: seq<Name>, n: nat)
    requires Lists(names, last, list) && 0 < n <= |list|
    ensures Lists(names, list[n - 1], list[n..])
    decreases n
  {
    hide Less, Lists;
    RestLists(names, last, list);
    if n > 1 {
      RestAfter(names, list[0], list[1..], n - 1);
      assert list[1..][n - 1..] == list[n..];
    }
  }

  lemma EverythingListed(names: seq<Name>, list: seq<Name>)
    requires Lists(names, [], list)
    ensures Ascending(list) && forall x :: x in list <==> x in names && x != []
  {
  }
}
