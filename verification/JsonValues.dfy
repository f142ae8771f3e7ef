/** Documents, lazy iteration and strings (src/json.rs lines 5-69, 95-213). A
    document is validated once; its parts are parsed again from their own bytes,
    which cannot fail, and yields exactly the members that the grammar sees. */
module JsonValues {
  import opened Numbers
  import opened Results
  import opened Concatenation
  import opened JsonText
  import opened JsonGrammar
  import opened JsonTrees
  import opened JsonParser
  import opened Utf8Text

  // ----- values stand on their own

  /** The bytes of a value, all of them, at the outermost level. */
  predicate Good(value: seq<u8>)
  {
    ValueLength(value, 0) == Ok(|value|)
  }

  /** Whatever the validator accepts, at any depth and whatever follows, parses again on its own. */
  lemma ReparsesAlone(text: seq<u8>, depth: nat)
    requires ValueLength(text, depth).Ok?
    ensures Good(Upto(text, ValueLength(text, depth).value))
  {
    hide ValueLength;
    var n := ValueLength(text, depth).value;
    ValueIsLocal(text, depth, n);
    ValueIsShallower(Upto(text, n), depth, 0);
  }

  /** Where the value of a document is, if its bytes are text at all. */
  function CheckedBounds(bytes: seq<u8>): (r: Result<(nat, nat), JsonError>)
    ensures r.Ok? ==> r.value.0 < r.value.1 <= |bytes|
  {
    if IsUtf8(bytes) then DocumentBounds(bytes) else Err(InvalidUtf8)
  }

  method ParseDocument(bytes: seq<u8>) returns (r: Result<seq<u8>, JsonError>)
    ensures
      match CheckedBounds(bytes)
      case Err(e) => r == Err(e)
      case Ok((start, end)) => r == Ok(bytes[start..end]) && Good(bytes[start..end])
  {
    hide ValueLength, SpaceRun, After, Upto, IsUtf8;
    if !IsUtf8(bytes) {
      return Err(InvalidUtf8);
    }
    NothingBefore(bytes);
    var start := Whitespace(bytes, 0);
    var end :- ParseValue(bytes, start, 0);
    ReparsesAlone(After(bytes, start), 0);
    SliceIs(bytes, start, end);
    var last := Whitespace(bytes, end);
    if last != |bytes| {
      return Err(InvalidSyntax);
    }
    r := Ok(bytes[start..end]);
  }

  lemma SliceIs(bytes: seq<u8>, start: nat, end: nat)
    requires start <= end <= |bytes|
    ensures bytes[start..end] == Upto(After(bytes, start), end - start)
  {
  }

  // ----- printing in front of more text

  lemma {:induction false} CharactersAppend(characters: seq<Character>, a: seq<u8>, b: seq<u8>)
    ensures PrintCharacters(characters, a + b) == PrintCharacters(characters, a) + b
  {
    hide PrintCharacter;
    if characters == [] {
      Associate([QUOTE], a, b);
    } else {
      CharactersAppend(characters[1..], a, b);
      Associate(PrintCharacter(characters[0]), PrintCharacters(characters[1..], a), b);
    }
  }

  lemma StringAppend(characters: seq<Character>, a: seq<u8>, b: seq<u8>)
    ensures PrintString(characters, a + b) == PrintString(characters, a) + b
  {
    hide PrintCharacters;
    CharactersAppend(characters, a, b);
    Associate([QUOTE], PrintCharacters(characters, a), b);
  }

  lemma ExponentAppend(e: Exponent, a: seq<u8>, b: seq<u8>)
    ensures PrintExponent(e, a + b) == PrintExponent(e, a) + b
  {
    var sign := if e.sign.Some? then [e.sign.value] else [];
    Associate(e.digits, a, b);
    Associate(sign, e.digits + a, b);
    Associate([e.letter], sign + (e.digits + a), b);
  }

  lemma FractionAppend(fraction: Option<seq<u8>>, a: seq<u8>, b: seq<u8>)
    ensures PrintFraction(fraction, a + b) == PrintFraction(fraction, a) + b
  {
    if fraction.Some? {
      Associate(fraction.value, a, b);
      Associate([POINT], fraction.value + a, b);
    }
  }

  lemma NumberAppend(n: Number, a: seq<u8>, b: seq<u8>)
    ensures PrintNumber(n, a + b) == PrintNumber(n, a) + b
  {
    hide PrintExponent, PrintFraction;
    if n.exponent.Some? {
      ExponentAppend(n.exponent.value, a, b);
    }
    var third := if n.exponent.Some? then PrintExponent(n.exponent.value, a) else a;
    FractionAppend(n.fraction, third, b);
    Associate(n.whole, PrintFraction(n.fraction, third), b);
    Associate(if n.negative then [MINUS] else [], n.whole + PrintFraction(n.fraction, third), b);
  }

  lemma KeyAppend(key: Key, a: seq<u8>, b: seq<u8>)
    ensures PrintKey(key, a + b) == PrintKey(key, a) + b
  {
    hide PrintString;
    Associate(key.behind, a, b);
    Associate([COLON], key.behind + a, b);
    Associate(key.before, [COLON] + (key.behind + a), b);
    StringAppend(key.characters, key.before + ([COLON] + (key.behind + a)), b);
  }

  lemma {:induction false} TreeAppend(t: Tree, a: seq<u8>, b: seq<u8>)
    ensures PrintTree(t, a + b) == PrintTree(t, a) + b
    decreases t
  {
    hide PrintNumber, PrintString;
    match t
    case Leaf(Literal(text)) => Associate(text, a, b);
    case Leaf(Numeric(number)) => NumberAppend(number, a, b);
    case Leaf(Text(characters)) => StringAppend(characters, a, b);
    case Box(closing, members, last) =>
      Associate([closing], a, b);
      Associate(last, [closing] + a, b);
      MembersAppend(members, true, last + ([closing] + a), b);
      Associate([Opening(closing)], PrintMembers(members, true, last + ([closing] + a)), b);
  }

  lemma {:induction false} MembersAppend(m: Members, first: bool, a: seq<u8>, b: seq<u8>)
    ensures PrintMembers(m, first, a + b) == PrintMembers(m, first, a) + b
    decreases m
  {
    hide PrintKey;
    match m
    case End =>
    case More(before, gap, key, value, later) =>
      MembersAppend(later, false, a, b);
      var rest := PrintMembers(later, false, a);
      TreeAppend(value, rest, b);
      var item := PrintTree(value, rest);
      if key.Some? {
        KeyAppend(key.value, item, b);
      }
      var keyed := if key.Some? then PrintKey(key.value, item) else item;
      Associate(gap, keyed, b);
      Associate([COMMA], gap + keyed, b);
      Associate(before, if first then keyed else [COMMA] + (gap + keyed), b);
  }

  /** The text of a tree on its own. */
  function TreeText(t: Tree): seq<u8>
  {
    PrintTree(t, [])
  }

  lemma TextInFront(t: Tree, tail: seq<u8>)
    ensures PrintTree(t, tail) == TreeText(t) + tail
    ensures |TreeText(t)| == |PrintTree(t, tail)| - |tail|
    ensures |tail| <= |PrintTree(t, tail)| && Upto(PrintTree(t, tail), |PrintTree(t, tail)| - |tail|) == TreeText(t)
  {
    hide PrintTree;
    assert [] + tail == tail;
    TreeAppend(t, [], tail);
  }

  // ----- strings

  /** Characters as they are written, without the quotes. */
  function Encoded(characters: seq<Character>): seq<u8>
  {
    if characters == [] then [] else PrintCharacter(characters[0]) + Encoded(characters[1..])
  }

  lemma {:induction false} EncodedInFront(characters: seq<Character>, tail: seq<u8>)
    ensures PrintCharacters(characters, tail) == Encoded(characters) + ([QUOTE] + tail)
  {
    hide PrintCharacter;
    if characters == [] {
      assert [] + ([QUOTE] + tail) == [QUOTE] + tail;
    } else {
      EncodedInFront(characters[1..], tail);
      Associate(PrintCharacter(characters[0]), Encoded(characters[1..]), [QUOTE] + tail);
    }
  }

  /** The string that printed characters are. */
  function AsString(characters: seq<Character>): JsonString
  {
    JsonString(Encoded(characters), BACKSLASH in Encoded(characters))
  }

  lemma StringValueOf(characters: seq<Character>, tail: seq<u8>)
    requires ValidText(characters)
    ensures
      var text := PrintString(characters, tail);
      && text != [] && StringLength(text).Ok?
      && StringValue(Upto(text, StringLength(text).value)) == Ok(AsString(characters))
  {
    hide PrintCharacters, Encoded, StringLength, CharactersLength;
    StringAccepted(characters, tail);
    EncodedInFront(characters, tail);
    var text := PrintString(characters, tail);
    var quoted := [QUOTE] + Encoded(characters) + [QUOTE];
    assert text == quoted + tail;
    assert Upto(text, |quoted|) == quoted;
    assert quoted[1..|quoted| - 1] == Encoded(characters);
  }

  // ----- lazy iteration

  /** The members that the grammar sees. */
  function ItemsOf(m: Members): seq<Member>
  {
    match m
    case End => []
    case More(_, _, key, value, later) =>
      [Member(if key.Some? then Some(AsString(key.value.characters)) else None, TreeText(value))] + ItemsOf(later)
  }

  lemma KeyOfMember(m: Members, closing: u8, first: bool, behind: seq<u8>)
    requires m.More? && ValidMembers(m, closing, first) && (closing == OBJECT_END || closing == ARRAY_END)
    ensures MemberKey(PrintMembers(m, first, behind), closing, first) ==
      if m.key.Some? then Some(AsString(m.key.value.characters)) else None
  {
    hide PrintTree, PrintKey, SpaceRun, After, Blank, ValidTree, ValidKey, KeyString, KeyLength, AsString, GapLength;
    var item := PrintTree(m.value, PrintMembers(m.later, false, behind));
    TreeStarts(m.value, PrintMembers(m.later, false, behind));
    var keyed := if m.key.Some? then PrintKey(m.key.value, item) else item;
    if m.key.Some? {
      KeyAccepted(m.key.value, item);
      KeyStringOf(m.key.value, item);
    }
    MemberParts(m.before, m.gap, keyed, first);
  }

  lemma KeyStringOf(key: Key, tail: seq<u8>)
    requires ValidKey(key)
    ensures KeyString(PrintKey(key, tail)) == Some(Ok(AsString(key.characters)))
  {
    hide PrintString, AsString, StringValue, StringLength, Upto;
    StringValueOf(key.characters, key.before + ([COLON] + (key.behind + tail)));
  }

  /** The next member of a container of an accepted document: never an error, and exactly the member of the grammar. */
  method TakeItem(container: Container, ghost m: Members, ghost last: seq<u8>) returns (item: Option<Member>)
    requires !container.finished && Blank(last) && (container.closing == OBJECT_END || container.closing == ARRAY_END)
    requires ValidMembers(m, container.closing, container.first) && MembersHeight(m) <= MAX_DEPTH + 1
    requires container.bytes == PrintMembers(m, container.first, last + ([container.closing] + []))
    modifies container
    ensures item.None? <==> m.End?
    ensures m.More? ==>
      && item == Some(ItemsOf(m)[0]) && Good(item.value.value) && !container.finished
      && ValidMembers(m.later, container.closing, container.first) && MembersHeight(m.later) <= MAX_DEPTH + 1
      && container.bytes == PrintMembers(m.later, container.first, last + ([container.closing] + []))
  {
    hide ValueLength, MemberFront, MemberKey, AsString, After, Upto, SpaceRun, PrintTree, PrintMembers, PrintKey,
        Blank, ValidKey, TreeText, ItemsOf, MembersHeight, ValidMembers, Good;
    NextItem(m, container.closing, container.first, last);
    var next := container.Next(0);
    if next.None? {
      return None;
    }
    ItemsSplit(m);
    item := Some(next.value.value);
  }

  /** Everything the iterator yields, for an object or an array of an accepted document: no error,
      exactly the members of the grammar, in order, and every value is good again. */
  method Items(value: seq<u8>, closing: u8, ghost t: Tree) returns (r: Result<seq<Member>, JsonError>)
    requires closing == OBJECT_END || closing == ARRAY_END
    requires ValidTree(t) && Height(t) <= MAX_DEPTH && value == TreeText(t)
    ensures r ==
      if t.Box? && t.closing == closing then Ok(ItemsOf(t.members)) else Err(WrongType)
    ensures r.Ok? ==> forall k :: 0 <= k < |r.value| ==> Good(r.value[k].value)
  {
    hide ValueLength, MemberFront, MemberKey, AsString, After, Upto, SpaceRun, PrintTree, PrintMembers, PrintKey,
        Blank, ValidKey, TreeText, ItemsOf, MembersHeight, ValidMembers, Good;
    OpensLike(t, closing);
    if !Begins(value, if closing == OBJECT_END then OBJECT_BEGIN else ARRAY_BEGIN) {
      return Err(WrongType);
    }
    ghost var tail: seq<u8> := t.last + ([closing] + []);
    BoxParts(t);
    var container := new Container(value, 0, closing);
    BoxInside(t);
    var items: seq<Member> := [];
    ghost var left := t.members;
    var going := true;
    while going
      invariant fresh(container) && container.closing == closing
      invariant ValidMembers(left, closing, container.first) && MembersHeight(left) <= MAX_DEPTH + 1
      invariant items + ItemsOf(left) == ItemsOf(t.members)
      invariant forall k :: 0 <= k < |items| ==> Good(items[k].value)
      invariant going ==> !container.finished && container.bytes == PrintMembers(left, container.first, tail)
      invariant !going ==> left == End
      decreases going, left
    {
      var item := TakeItem(container, left, t.last);
      if item.None? {
        EndIsValid(closing, container.first);
        going := false;
      } else {
        ItemsSplit(left);
        Regroup(items, item.value, ItemsOf(left.later));
        items := items + [item.value];
        left := left.later;
      }
    }
    NoItems();
    assert items + [] == items;
    r := Ok(items);
  }

  lemma NoItems()
    ensures ItemsOf(End) == []
  {
  }

  lemma EndIsValid(closing: u8, first: bool)
    ensures ValidMembers(End, closing, first) && MembersHeight(End) == 0
  {
  }

  lemma BoxParts(t: Tree)
    requires t.Box? && ValidTree(t) && Height(t) <= MAX_DEPTH
    ensures Blank(t.last) && ValidMembers(t.members, t.closing, true) && MembersHeight(t.members) <= MAX_DEPTH + 1
    ensures [] + ItemsOf(t.members) == ItemsOf(t.members)
  {
  }

  lemma OpensLike(t: Tree, closing: u8)
    requires ValidTree(t) && (closing == OBJECT_END || closing == ARRAY_END)
    ensures Begins(TreeText(t), Opening(closing)) <==> t.Box? && t.closing == closing
  {
    TreeStarts(t, []);
  }

  lemma BoxInside(t: Tree)
    requires t.Box?
    ensures TreeText(t) != [] && After(TreeText(t), 1) == PrintMembers(t.members, true, t.last + ([t.closing] + []))
  {
    AfterFront([Opening(t.closing)], PrintMembers(t.members, true, t.last + ([t.closing] + [])));
  }

  lemma ItemsSplit(m: Members)
    requires m.More?
    ensures ItemsOf(m) != [] && ItemsOf(m) == [ItemsOf(m)[0]] + ItemsOf(m.later)
    ensures ItemsOf(m)[0]
        == Member(if m.key.Some? then Some(AsString(m.key.value.characters)) else None, TreeText(m.value))
  {
    hide AsString, TreeText;
  }

  lemma Regroup(items: seq<Member>, item: Member, later: seq<Member>)
    ensures items + ([item] + later) == (items + [item]) + later
  {
  }

  /** What the cursor finds in front of printed members, at the outermost depth. */
  lemma NextItem(m: Members, closing: u8, first: bool, last: seq<u8>)
    requires ValidMembers(m, closing, first) && Blank(last) && (closing == OBJECT_END || closing == ARRAY_END)
    requires MembersHeight(m) <= MAX_DEPTH + 1
    ensures
      var text := PrintMembers(m, first, last + ([closing] + []));
      match m
      case End => MemberFront(text, closing, first) == Ok(None)
      case More(_, _, key, value, later) =>
        var rest := PrintMembers(later, false, last + ([closing] + []));
        var item := PrintTree(value, rest);
        && |item| <= |text| && MemberFront(text, closing, first) == Ok(Some(|text| - |item|))
        && After(text, |text| - |item|) == item
        && ValueLength(item, 0) == Ok(|item| - |rest|)
        && After(item, |item| - |rest|) == rest
        && Upto(item, |item| - |rest|) == TreeText(value) && Good(TreeText(value))
        && MemberKey(text, closing, first) == (if key.Some? then Some(AsString(key.value.characters)) else None)
        && ValidMembers(later, closing, false) && MembersHeight(later) <= MAX_DEPTH + 1
  {
    hide ValueLength, MemberFront, MemberKey, AsString, After, Upto, SpaceRun, PrintTree, PrintKey, Blank, ValidKey,
        Stops, TreeText;
    var behind := last + ([closing] + []);
    match m
    case End => ClosingFront(closing, first, last, []);
    case More(_, _, key, value, later) =>
      var rest := PrintMembers(later, false, behind);
      MemberAccepted(m, closing, first, behind);
      RestStops(later, closing, last, []);
      TreeAccepted(value, rest, 0);
      ReparsesAlone(PrintTree(value, rest), 0);
      TreeEnds(value, rest);
      EndsUnfold(PrintTree(value, rest), rest);
      TextInFront(value, rest);
      KeyOfMember(m, closing, first, behind);
  }

  lemma EndsUnfold(text: seq<u8>, tail: seq<u8>)
    requires EndsWith(text, tail)
    ensures |tail| <= |text| && After(text, |text| - |tail|) == tail
  {
  }

  // ----- decoding strings

  function ShortValue(letter: u8): nat
  {
    if letter == 0x62 then 0x08
    else if letter == 0x66 then 0x0c
    else if letter == 0x6e then 0x0a
    else if letter == 0x72 then 0x0d
    else if letter == 0x74 then 0x09
    else letter
  }

  /** The code point that an escape stands for (RFC 8259 section 7). */
  function CodePoint(c: Character): nat
    requires ValidCharacter(c) && !c.Plain?
  {
    match c
    case Short(letter) => ShortValue(letter)
    case Unit(hex) => UnicodeEscape(hex).value
    case Pair(high, low) => 0x10000 + (UnicodeEscape(high).value - 0xd800) * 0x400 + (UnicodeEscape(low).value - 0xdc00)
  }

  lemma EscapeReads(c: Character, tail: seq<u8>)
    requires ValidCharacter(c) && !c.Plain?
    ensures Begins(PrintCharacter(c) + tail, BACKSLASH)
    ensures EscapedCharacter(PrintCharacter(c) + tail) == Ok((CodePoint(c), |PrintCharacter(c)|))
        && IsScalar(CodePoint(c))
  {
    hide UnicodeCharacter, UnicodeEscape, After;
    var text := PrintCharacter(c) + tail;
    match c
    case Short(_) =>
      assert text[0] == BACKSLASH && text[1] == c.letter;
    case Unit(hex) =>
      assert text == [BACKSLASH, 0x75] + (hex + tail);
      AfterFront([BACKSLASH, 0x75], hex + tail);
      UnitReads(hex, tail);
    case Pair(high, low) =>
      var behind := [BACKSLASH, 0x75] + (low + tail);
      assert text == [BACKSLASH, 0x75] + (high + behind);
      AfterFront([BACKSLASH, 0x75], high + behind);
      PairReads(high, low, tail);
  }

  lemma UnitReads(hex: seq<u8>, tail: seq<u8>)
    requires ValidCharacter(Unit(hex))
    ensures UnicodeCharacter(hex + tail) == Ok((UnicodeEscape(hex).value, 4)) && IsScalar(UnicodeEscape(hex).value)
  {
    hide UnicodeEscape;
    HexFront(hex, tail);
  }

  lemma PairReads(high: seq<u8>, low: seq<u8>, tail: seq<u8>)
    requires ValidCharacter(Pair(high, low))
    ensures UnicodeCharacter(high + ([BACKSLASH, 0x75] + (low + tail))) == Ok((CodePoint(Pair(high, low)), 10))
    ensures IsScalar(CodePoint(Pair(high, low)))
  {
    hide UnicodeEscape, After;
    var behind := [BACKSLASH, 0x75] + (low + tail);
    var text := high + behind;
    HexFront(high, behind);
    HexFront(low, tail);
    assert text[4] == behind[0] && text[5] == behind[1];
    assert text == (high + [BACKSLASH, 0x75]) + (low + tail);
    AfterFront(high + [BACKSLASH, 0x75], low + tail);
  }

  /** The bytes that a character is decoded to; bytes that stand for themselves pass through. */
  function DecodedCharacter(c: Character): seq<u8>
    requires ValidCharacter(c)
  {
    if c.Plain? then [c.byte] else EscapeReads(c, []); Utf8(CodePoint(c))
  }

  function Decoded(characters: seq<Character>): seq<u8>
    requires ValidText(characters)
  {
    if characters == [] then []
    else
      assert ValidCharacter(characters[0]);
      DecodedCharacter(characters[0]) + Decoded(characters[1..])
  }

  /** Decoding never needs more room than the encoded text takes. */
  lemma {:induction false} DecodedFits(characters: seq<Character>)
    requires ValidText(characters)
    ensures |Decoded(characters)| <= |Encoded(characters)|
  {
    hide PrintCharacter, DecodedCharacter;
    if characters != [] {
      assert ValidCharacter(characters[0]);
      CharacterFits(characters[0]);
      DecodedFits(characters[1..]);
    }
  }

  lemma CharacterFits(c: Character)
    requires ValidCharacter(c)
    ensures |DecodedCharacter(c)| <= |PrintCharacter(c)|
  {
    hide UnicodeEscape;
    if !c.Plain? {
      EscapeReads(c, []);
      UnitsAreSmall(c);
    }
  }

  lemma UnitsAreSmall(c: Character)
    requires ValidCharacter(c) && !c.Plain?
    ensures c.Short? ==> CodePoint(c) < 0x80
    ensures c.Unit? ==> CodePoint(c) < 0x10000
  {
  }

  /** The front of an encoded text: what it decodes to, and its length. */
  function Piece(text: seq<u8>): (r: Result<(seq<u8>, nat), JsonError>)
    requires text != []
    ensures r.Ok? ==> 0 < r.value.1 <= |text| && r.value.0 != []
  {
    if text[0] == BACKSLASH then var (scalar, used) :- EscapedCharacter(text); Ok((Utf8(scalar), used))
        else Ok(([text[0]], 1))
  }

  /** Decoding piece by piece into limited room. */
  function DecodeAll(text: seq<u8>, room: nat): Result<seq<u8>, JsonError>
    decreases |text|
  {
    if text == [] then Ok([])
    else
      var (piece, used) :- Piece(text);
      if |piece| > room then Err(BufferTooSmall)
      else
        var later :- DecodeAll(After(text, used), room - |piece|);
        Ok(piece + later)
  }

  lemma PieceOf(c: Character, tail: seq<u8>)
    requires ValidCharacter(c)
    ensures PrintCharacter(c) + tail != []
        && Piece(PrintCharacter(c) + tail) == Ok((DecodedCharacter(c), |PrintCharacter(c)|))
  {
    hide EscapedCharacter, Utf8, CodePoint;
    PlainIsPlain(c);
    if !c.Plain? {
      EscapeReads(c, tail);
    }
  }

  /** A string of an accepted document decodes to its characters; the only error left is a buffer that is too small. */
  lemma {:induction false} ValidDecodes(characters: seq<Character>, room: nat)
    requires ValidText(characters)
    ensures DecodeAll(Encoded(characters), room) ==
      if |Decoded(characters)| <= room then Ok(Decoded(characters)) else Err(BufferTooSmall)
  {
    hide Piece, PrintCharacter, DecodedCharacter, After;
    if characters != [] {
      assert ValidCharacter(characters[0]);
      var tail := Encoded(characters[1..]);
      PieceOf(characters[0], tail);
      AfterFront(PrintCharacter(characters[0]), tail);
      var piece := DecodedCharacter(characters[0]);
      if |piece| <= room {
        ValidDecodes(characters[1..], room - |piece|);
      }
    }
  }

  lemma {:induction false} PlainDecodes(text: seq<u8>, room: nat)
    requires BACKSLASH !in text
    ensures DecodeAll(text, room) == if |text| <= room then Ok(text) else Err(BufferTooSmall)
    decreases |text|
  {
    if text != [] {
      assert text == [text[0]] + After(text, 1);
      if room > 0 {
        PlainDecodes(After(text, 1), room - 1);
      }
    }
  }

  // ----- decoding keeps UTF-8

  lemma {:induction false} DropAscii(text: seq<u8>, n: nat)
    requires n <= |text| && IsUtf8(text) && forall k :: 0 <= k < n ==> text[k] < 0x80
    ensures IsUtf8(After(text, n))
    decreases n
  {
    if n > 0 {
      assert forall k :: 0 <= k < n - 1 ==> text[1..][k] == text[k + 1];
      DropAscii(text[1..], n - 1);
      JsonTrees.AfterTwice(text, 1, n - 1);
    } else {
      JsonTrees.AfterNothing(text);
    }
  }

  /** An escape is ASCII. */
  lemma EscapeIsAscii(text: seq<u8>)
    requires Begins(text, BACKSLASH) && EscapedCharacter(text).Ok?
    ensures forall k :: 0 <= k < EscapedCharacter(text).value.1 ==> text[k] < 0x80
  {
    var used := EscapedCharacter(text).value.1;
    if used > 2 {
      HexIsAscii(After(text, 2));
      if used == 12 {
        HexIsAscii(After(text, 8));
        assert After(After(text, 2), 6) == After(text, 8);
        assert forall k :: 8 <= k < 12 ==> text[k] == After(text, 8)[k - 8];
      }
      assert forall k :: 2 <= k < 8 && k < used ==> text[k] == After(text, 2)[k - 2];
    }
  }

  lemma HexIsAscii(text: seq<u8>)
    ensures UnicodeEscape(text).Ok? ==> forall k :: 0 <= k < 4 ==> text[k] < 0x80
  {
  }

  /** Bytes that are no escapes pass through. */
  lemma {:induction false} BytesPass(text: seq<u8>, n: nat, room: nat)
    requires n <= |text| && forall k :: 0 <= k < n ==> text[k] != BACKSLASH
    requires DecodeAll(text, room).Ok?
    ensures n <= room && DecodeAll(After(text, n), room - n).Ok?
    ensures DecodeAll(text, room).value == Upto(text, n) + DecodeAll(After(text, n), room - n).value
    decreases n
  {
    hide DecodeAll, After, Upto;
    if n == 0 {
      NothingUpto(text, DecodeAll(text, room).value);
    } else {
      BytePasses(text, room);
      FirstApart(text, n);
      BytesPass(After(text, 1), n - 1, room - 1);
      Associate([text[0]], Upto(After(text, 1), n - 1), DecodeAll(After(text, n), room - n).value);
    }
  }

  lemma NothingUpto(text: seq<u8>, value: seq<u8>)
    ensures After(text, 0) == text && Upto(text, 0) + value == value
  {
  }

  lemma BytePasses(text: seq<u8>, room: nat)
    requires text != [] && text[0] != BACKSLASH && DecodeAll(text, room).Ok?
    ensures room > 0 && DecodeAll(After(text, 1), room - 1).Ok?
    ensures DecodeAll(text, room).value == [text[0]] + DecodeAll(After(text, 1), room - 1).value
  {
  }

  lemma FirstApart(text: seq<u8>, n: nat)
    requires 0 < n <= |text|
    ensures forall k :: 0 <= k < n - 1 ==> After(text, 1)[k] == text[k + 1]
    ensures After(After(text, 1), n - 1) == After(text, n) && Upto(text, n) == [text[0]] + Upto(After(text, 1), n - 1)
  {
  }

  lemma CharacterBytes(text: seq<u8>)
    requires CharacterLength(text) > 0 && !Begins(text, BACKSLASH)
    ensures
      var n := CharacterLength(text);
      && CharacterLength(Upto(text, n)) == n
      && forall k :: 0 <= k < n ==> text[k] != BACKSLASH
  {
  }

  /** What UTF-8 decodes to is UTF-8: the check at the end of decoding cannot fail. */
  lemma {:induction false} DecodesToUtf8(text: seq<u8>, room: nat)
    requires IsUtf8(text) && DecodeAll(text, room).Ok?
    ensures IsUtf8(DecodeAll(text, room).value)
    decreases |text|
  {
    hide CharacterLength, EscapedCharacter, Utf8, After, Upto;
    if Begins(text, BACKSLASH) {
      var (scalar, used) := EscapedCharacter(text).value;
      EscapeIsAscii(text);
      DropAscii(text, used);
      DecodesToUtf8(After(text, used), room - |Utf8(scalar)|);
      ScalarIsCharacter(scalar, []);
      assert Utf8(scalar) + [] == Utf8(scalar);
      Utf8Append(Utf8(scalar), DecodeAll(After(text, used), room - |Utf8(scalar)|).value);
    } else if text != [] {
      var n := CharacterLength(text);
      CharacterBytes(text);
      BytesPass(text, n, room);
      AfterIsSlice(text, n);
      DecodesToUtf8(After(text, n), room - n);
      Utf8Append(Upto(text, n), DecodeAll(After(text, n), room - n).value);
    }
  }

  lemma AfterIsSlice(text: seq<u8>, n: nat)
    requires n <= |text|
    ensures After(text, n) == text[n..]
  {
  }

  /** Decodes to the start of `buffer`; returns how many bytes. */
  method DecodeInto(s: JsonString, buffer: array<u8>) returns (r: Result<nat, JsonError>)
    requires (s.escaped <==> BACKSLASH in s.encoded) && IsUtf8(s.encoded)
    modifies buffer
    ensures
      match DecodeAll(s.encoded, buffer.Length)
      case Err(e) => r == Err(e)
      case Ok(bytes) => r == Ok(|bytes|) && |bytes| <= buffer.Length && buffer[..|bytes|] == bytes && IsUtf8(bytes)
  {
    hide Piece, After, IsUtf8;
    if !s.escaped {
      PlainDecodes(s.encoded, buffer.Length);
      if |s.encoded| > buffer.Length {
        return Err(BufferTooSmall);
      }
      CopyTo(buffer, 0, s.encoded);
      assert buffer[..|s.encoded|] == s.encoded;
      if !IsUtf8(buffer[..|s.encoded|]) {
        return Err(InvalidUtf8);
      }
      return Ok(|s.encoded|);
    }
    ghost var whole := DecodeAll(s.encoded, buffer.Length);
    var source := s.encoded;
    var output: nat := 0;
    assert buffer[..0] == [];
    if whole.Ok? {
      assert [] + whole.value == whole.value;
    }
    while source != []
      invariant output <= buffer.Length
      invariant
        match DecodeAll(source, buffer.Length - output)
        case Err(e) => whole == Err(e)
        case Ok(later) => whole == Ok(buffer[..output] + later)
      decreases |source|
    {
      var piece :- Piece(source);
      if |piece.0| > buffer.Length - output {
        return Err(BufferTooSmall);
      }
      ghost var before := buffer[..output];
      CopyTo(buffer, output, piece.0);
      if DecodeAll(After(source, piece.1), buffer.Length - output - |piece.0|).Ok? {
        Associate(before, piece.0, DecodeAll(After(source, piece.1), buffer.Length - output - |piece.0|).value);
      }
      output := output + |piece.0|;
      source := After(source, piece.1);
    }
    assert buffer[..output] + [] == buffer[..output];
    DecodesToUtf8(s.encoded, buffer.Length);
    if !IsUtf8(buffer[..output]) {
      return Err(InvalidUtf8);
    }
    r := Ok(output);
  }

  method CopyTo(buffer: array<u8>, at: nat, bytes: seq<u8>)
    requires at + |bytes| <= buffer.Length
    modifies buffer
    ensures buffer[..at + |bytes|] == old(buffer[..at]) + bytes
  {
    for i := 0 to |bytes|
      invariant forall k :: 0 <= k < at ==> buffer[k] == old(buffer[k])
      invariant forall k :: at <= k < at + i ==> buffer[k] == bytes[k - at]
    {
      buffer[at + i] := bytes[i];
    }
  }

  // ----- comparing and looking up

  predicate IsAscii(text: seq<u8>)
  {
    forall k :: 0 <= k < |text| ==> text[k] < 0x80
  }

  /** Comparing character by character is decoding and then comparing. */
  method EqualsAscii(s: JsonString, expected: seq<u8>, ghost characters: seq<Character>) returns (equal: bool)
    requires ValidText(characters) && s == AsString(characters)
    ensures equal <==> IsAscii(expected) && Decoded(characters) == expected
  {
    hide Encoded, Decoded, Piece, PrintCharacter, DecodedCharacter, After;
    if !IsAscii(expected) {
      return false;
    }
    if !s.escaped {
      UnescapedDecodes(characters);
      return s.encoded == expected;
    }
    var source, i := s.encoded, 0;
    ghost var left := characters;
    assert expected[0..] == expected;
    while source != []
      invariant ValidText(left) && source == Encoded(left) && i <= |expected|
      invariant Decoded(characters) == expected <==> Decoded(left) == expected[i..]
      decreases |left|
    {
      NextPiece(left);
      var piece := Piece(source).value;
      PieceDecides(left, expected, i);
      if i == |expected| || piece.0 != [expected[i]] {
        return false;
      }
      i := i + 1;
      source := After(source, piece.1);
      left := left[1..];
    }
    if left != [] {
      SomethingLeft(left);
    }
    NothingDecodes(left);
    equal := i == |expected|;
  }

  lemma UnescapedDecodes(characters: seq<Character>)
    requires ValidText(characters) && BACKSLASH !in Encoded(characters)
    ensures Decoded(characters) == Encoded(characters)
  {
    hide Encoded, Decoded, DecodeAll;
    DecodedFits(characters);
    ValidDecodes(characters, |Encoded(characters)|);
    PlainDecodes(Encoded(characters), |Encoded(characters)|);
  }

  lemma SomethingLeft(left: seq<Character>)
    requires ValidText(left) && left != []
    ensures Encoded(left) != []
  {
    assert ValidCharacter(left[0]);
    PlainIsPlain(left[0]);
  }

  lemma NothingDecodes(left: seq<Character>)
    requires ValidText(left)
    ensures left == [] ==> Decoded(left) == []
  {
  }

  lemma NextPiece(left: seq<Character>)
    requires ValidText(left) && Encoded(left) != []
    ensures left != [] && ValidText(left[1..]) && ValidCharacter(left[0])
    ensures Piece(Encoded(left)) == Ok((DecodedCharacter(left[0]), |PrintCharacter(left[0])|))
    ensures After(Encoded(left), |PrintCharacter(left[0])|) == Encoded(left[1..])
    ensures Decoded(left) == DecodedCharacter(left[0]) + Decoded(left[1..])
  {
    hide PrintCharacter, DecodedCharacter, Piece, After;
    assert left != [];
    assert ValidCharacter(left[0]);
    PieceOf(left[0], Encoded(left[1..]));
    AfterFront(PrintCharacter(left[0]), Encoded(left[1..]));
  }

  /** One character decides: it is the next expected byte, or the strings differ. */
  lemma PieceDecides(left: seq<Character>, expected: seq<u8>, i: nat)
    requires ValidText(left) && left != [] && ValidCharacter(left[0]) && ValidText(left[1..]) && IsAscii(expected)
        && i <= |expected|
    ensures i < |expected| && DecodedCharacter(left[0]) == [expected[i]] ==>
              (Decoded(left) == expected[i..] <==> Decoded(left[1..]) == expected[i + 1..])
    ensures i == |expected| || DecodedCharacter(left[0]) != [expected[i]] ==> Decoded(left) != expected[i..]
  {
    hide PrintCharacter, CodePoint;
    var piece, later := DecodedCharacter(left[0]), Decoded(left[1..]);
    PieceShape(left[0]);
    assert Decoded(left) == piece + later;
    if i < |expected| {
      assert expected[i..] == [expected[i]] + expected[i + 1..];
      assert expected[i..][0] == expected[i];
      if piece == [expected[i]] {
        SameFront(expected[i], later, expected[i + 1..]);
      } else {
        assert (piece + later)[0] == piece[0];
      }
    }
  }

  lemma PieceShape(c: Character)
    requires ValidCharacter(c)
    ensures DecodedCharacter(c) != [] && (DecodedCharacter(c)[0] < 0x80 ==> |DecodedCharacter(c)| == 1)
  {
    hide CodePoint;
    if !c.Plain? {
      EscapeReads(c, []);
    }
  }

  lemma SameFront(byte: u8, a: seq<u8>, b: seq<u8>)
    ensures [byte] + a == [byte] + b <==> a == b
  {
    if [byte] + a == [byte] + b {
      assert ([byte] + a)[1..] == a && ([byte] + b)[1..] == b;
    }
  }

  /** The values of the members with that name; names are compared as ASCII, so no other name is ever found. */
  function Named(m: Members, name: seq<u8>): seq<seq<u8>>
    requires ValidMembers(m, OBJECT_END, true) || ValidMembers(m, OBJECT_END, false)
  {
    match m
    case End => []
    case More(_, _, key, value, later) =>
      (if IsAscii(name) && Decoded(key.value.characters) == name then [TreeText(value)] else []) + Named(later, name)
  }

  /** Looks a field up: its value if it is there once, an error if it is there twice. */
  method Get(value: seq<u8>, name: seq<u8>, ghost t: Tree) returns (r: Result<Option<seq<u8>>, JsonError>)
    requires ValidTree(t) && Height(t) <= MAX_DEPTH && value == TreeText(t)
    ensures
      if !(t.Box? && t.closing == OBJECT_END) then r == Err(WrongType)
      else
        var named := Named(t.members, name);
        r == if named == [] then Ok(None) else if |named| == 1 then Ok(Some(named[0])) else Err(DuplicateField(name))
  {
    hide PrintTree, TreeText, AsString, Decoded, ValidKey, ValidTree;
    if t.Box? {
      TreeUnfold(t);
    }
    var items :- Items(value, OBJECT_END, t);
    var found: Option<seq<u8>> := None;
    ghost var left := t.members;
    ghost var whole := Named(t.members, name);
    for i := 0 to |items|
      invariant ValidMembers(left, OBJECT_END, true) || ValidMembers(left, OBJECT_END, false)
      invariant ItemsOf(left) == items[i..]
      invariant whole == (if found.Some? then [found.value] else []) + Named(left, name)
    {
      assert left.More?;
      ItemsSplit(left);
      assert items[i..][0] == items[i] && items[i..][1..] == items[i + 1..];
      KeyIsValid(left);
      assert ItemsOf(left)[1..] == ItemsOf(left.later);
      var same := EqualsAscii(items[i].key.value, name, left.key.value.characters);
      if same {
        if found.Some? {
          return Err(DuplicateField(name));
        }
        found := Some(items[i].value);
      }
      left := left.later;
    }
    assert left.End?;
    r := Ok(found);
  }

  lemma TreeUnfold(t: Tree)
    requires ValidTree(t) && t.Box?
    ensures ValidMembers(t.members, t.closing, true)
  {
  }

  lemma KeyIsValid(m: Members)
    requires m.More? && (ValidMembers(m, OBJECT_END, true) || ValidMembers(m, OBJECT_END, false))
    ensures m.key.Some? && ValidText(m.key.value.characters) && ValidMembers(m.later, OBJECT_END, false)
  {
  }
}
