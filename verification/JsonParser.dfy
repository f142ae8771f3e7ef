/** The parser (src/json.rs lines 215-439): a validator that walks
    positions, and the cursor it shares with the lazy iterators. */
module JsonParser {
  import opened Numbers
  import opened Results
  import opened AsciiText
  import opened JsonText
  import opened JsonGrammar

  // ----- tokens, by position

  method Whitespace(bytes: seq<u8>, position: nat) returns (end: nat)
    requires position <= |bytes|
    ensures end <= |bytes| && end == position + SpaceRun(After(bytes, position))
  {
    end := position;
    while end < |bytes| && IsSpace(bytes[end])
      invariant position <= end <= |bytes|
          && end + SpaceRun(After(bytes, end)) == position + SpaceRun(After(bytes, position))
    {
      StepRun(bytes, end);
      end := end + 1;
    }
    StopRun(bytes, end);
  }

  lemma StepRun(bytes: seq<u8>, at: nat)
    requires at < |bytes|
    ensures IsSpace(bytes[at]) ==> SpaceRun(After(bytes, at)) == 1 + SpaceRun(After(bytes, at + 1))
    ensures IsDigit(bytes[at]) ==> DigitRun(After(bytes, at)) == 1 + DigitRun(After(bytes, at + 1))
  {
    assert After(bytes, at)[1..] == After(bytes, at + 1);
  }

  lemma StopRun(bytes: seq<u8>, at: nat)
    requires at <= |bytes|
    ensures (at == |bytes| || !IsSpace(bytes[at])) ==> SpaceRun(After(bytes, at)) == 0
    ensures (at == |bytes| || !IsDigit(bytes[at])) ==> DigitRun(After(bytes, at)) == 0
  {
  }

  method DecimalDigits(bytes: seq<u8>, start: nat) returns (r: Result<nat, JsonError>)
    requires start <= |bytes|
    ensures
      match DigitsLength(After(bytes, start))
      case Err(e) => r == Err(e)
      case Ok(n) => r == Ok(start + n)
  {
    var position := start;
    while position < |bytes| && IsDigit(bytes[position])
      invariant start <= position <= |bytes|
      invariant position + DigitRun(After(bytes, position)) == start + DigitRun(After(bytes, start))
    {
      StepRun(bytes, position);
      position := position + 1;
    }
    StopRun(bytes, position);
    if position == start {
      return Err(InvalidNumber);
    }
    r := Ok(position);
  }

  lemma AfterAgain(text: seq<u8>, a: nat, b: nat)
    requires a + b <= |text|
    ensures After(After(text, a), b) == After(text, a + b)
  {
  }

  lemma BeginsAt(bytes: seq<u8>, position: nat, byte: u8)
    requires position <= |bytes|
    ensures Begins(After(bytes, position), byte) <==> position < |bytes| && bytes[position] == byte
  {
  }

  method ParseInteger(bytes: seq<u8>, position: nat) returns (r: Result<nat, JsonError>)
    requires position <= |bytes|
    ensures
      match IntegerLength(After(bytes, position))
      case Err(e) => r == Err(e)
      case Ok(n) => r == Ok(position + n) && position + n <= |bytes|
  {
    hide DigitRun;
    BeginsAt(bytes, position, ZERO);
    if position < |bytes| && bytes[position] == ZERO {
      return Ok(position + 1);
    }
    r := DecimalDigits(bytes, position);
  }

  method ParseNumber(bytes: seq<u8>, start: nat) returns (r: Result<nat, JsonError>)
    requires start <= |bytes|
    ensures
      match NumberLength(After(bytes, start))
      case Err(e) => r == Err(e)
      case Ok(n) => r == Ok(start + n)
  {
    hide DigitRun, After, Begins, IntegerLength, DigitsLength;
    var position := start;
    BeginsAt(bytes, start, MINUS);
    if position < |bytes| && bytes[position] == MINUS {
      position := position + 1;
    }
    AfterAgain(bytes, start, position - start);
    var afterMinus := position;
    position :- ParseInteger(bytes, position);
    AfterAgain(bytes, afterMinus, position - afterMinus);
    var afterWhole := position;
    position :- ParseFraction(bytes, position);
    AfterAgain(bytes, afterWhole, position - afterWhole);
    r := ParseExponent(bytes, position);
  }

  method ParseFraction(bytes: seq<u8>, position: nat) returns (r: Result<nat, JsonError>)
    requires position <= |bytes|
    ensures
      match FractionLength(After(bytes, position))
      case Err(e) => r == Err(e)
      case Ok(n) => r == Ok(position + n) && position + n <= |bytes|
  {
    hide DigitRun, After, Begins, DigitsLength;
    BeginsAt(bytes, position, POINT);
    if position < |bytes| && bytes[position] == POINT {
      AfterAgain(bytes, position, 1);
      r := DecimalDigits(bytes, position + 1);
    } else {
      r := Ok(position);
    }
  }

  method ParseExponent(bytes: seq<u8>, start: nat) returns (r: Result<nat, JsonError>)
    requires start <= |bytes|
    ensures
      match ExponentLength(After(bytes, start))
      case Err(e) => r == Err(e)
      case Ok(n) => r == Ok(start + n) && start + n <= |bytes|
  {
    hide DigitRun, After, Begins, DigitsLength;
    var position := start;
    BeginsAt(bytes, start, 0x65);
    BeginsAt(bytes, start, 0x45);
    if position < |bytes| && (bytes[position] == 0x65 || bytes[position] == 0x45) {
      position := position + 1;
      AfterAgain(bytes, start, 1);
      BeginsAt(bytes, position, 0x2b);
      BeginsAt(bytes, position, MINUS);
      if position < |bytes| && (bytes[position] == 0x2b || bytes[position] == MINUS) {
        position := position + 1;
      }
      AfterAgain(bytes, start, position - start);
      r := DecimalDigits(bytes, position);
    } else {
      r := Ok(position);
    }
  }

  /** Four hexadecimal digits, shifted in one by one. */
  method ReadUnicodeEscape(text: seq<u8>) returns (r: Result<nat, JsonError>)
    ensures r == UnicodeEscape(text)
  {
    if |text| < 4 {
      return Err(InvalidEscape);
    }
    var value := 0;
    for i := 0 to 4
      invariant i > 0 ==> HexValue(text[0]).Some?
      invariant i > 1 ==> HexValue(text[1]).Some?
      invariant i > 2 ==> HexValue(text[2]).Some?
      invariant i > 3 ==> HexValue(text[3]).Some?
      invariant i == 0 ==> value == 0
      invariant i == 1 ==> value == HexValue(text[0]).value
      invariant i == 2 ==> value == HexValue(text[0]).value * 16 + HexValue(text[1]).value
      invariant i == 3 ==>
        value == (HexValue(text[0]).value * 16 + HexValue(text[1]).value) * 16 + HexValue(text[2]).value
      invariant i == 4 ==>
        value == ((HexValue(text[0]).value * 16 + HexValue(text[1]).value) * 16 + HexValue(text[2]).value) * 16
                 + HexValue(text[3]).value
    {
      var digit := HexValue(text[i]);
      if digit.None? {
        return Err(InvalidEscape);
      }
      value := value * 16 + digit.value;
    }
    r := Ok(value);
  }

  /** The end of a string that begins at `position`. */
  method ParseString(bytes: seq<u8>, position: nat) returns (r: Result<nat, JsonError>)
    requires position < |bytes|
    ensures
      match StringLength(After(bytes, position))
      case Err(e) => r == Err(e)
      case Ok(n) => r == Ok(position + n) && position + n <= |bytes|
  {
    hide After, EscapedCharacter, Begins;
    var index := position + 1;
    AfterAgain(bytes, position, 1);
    ghost var whole := CharactersLength(After(bytes, index));
    while index < |bytes|
      invariant position < index <= |bytes|
      invariant
        match CharactersLength(After(bytes, index))
        case Err(e) => whole == Err(e)
        case Ok(n) => whole == Ok(index - position - 1 + n)
      decreases |bytes| - index
    {
      var byte := bytes[index];
      AfterFirst(bytes, index);
      if byte == QUOTE {
        return Ok(index + 1);
      }
      if byte == BACKSLASH {
        BeginsAt(bytes, index, BACKSLASH);
        var character :- EscapedCharacter(After(bytes, index));
        AfterAgain(bytes, index, character.1);
        index := index + character.1;
      } else if byte < 0x20 {
        return Err(InvalidSyntax);
      } else {
        AfterAgain(bytes, index, 1);
        index := index + 1;
      }
    }
    r := Err(InvalidSyntax);
  }

  lemma AfterFirst(bytes: seq<u8>, index: nat)
    requires index < |bytes|
    ensures After(bytes, index) != [] && After(bytes, index)[0] == bytes[index]
  {
  }

  // ----- values

  datatype JsonString = JsonString(encoded: seq<u8>, escaped: bool)

  /** A member of a container: the key of an object's member, and the bytes of the value. */
  datatype Member = Member(key: Option<JsonString>, value: seq<u8>)

  /** The string that a value is, without its quotes. */
  function StringValue(value: seq<u8>): Result<JsonString, JsonError>
  {
    if !Begins(value, QUOTE) || value[|value| - 1] != QUOTE || |value| < 2 then Err(WrongType)
    else
      var encoded := value[1..|value| - 1];
      Ok(JsonString(encoded, BACKSLASH in encoded))
  }

  /** The string in front of the text, if there is one. */
  function KeyString(text: seq<u8>): Option<Result<JsonString, JsonError>>
  {
    if text == [] || StringLength(text).Err? then None else Some(StringValue(Upto(text, StringLength(text).value)))
  }

  /** The key of the next member. */
  function MemberKey(text: seq<u8>, closing: u8, first: bool): Option<JsonString>
  {
    var body := After(text, SpaceRun(text));
    var gap := GapLength(body, first);
    if closing != OBJECT_END || gap.Err? then None
    else
      match KeyString(After(body, gap.value))
      case Some(Ok(key)) => Some(key)
      case _ => None
  }

  /** For termination: how much deeper containers may still nest. */
  function Room(depth: nat): nat
  {
    if depth > MAX_DEPTH + 2 then 0 else MAX_DEPTH + 2 - depth
  }

  /** The cursor over the members of a container. */
  class Container {
    var bytes: seq<u8>
    const closing: u8
    var first: bool
    var finished: bool

    constructor (bytes: seq<u8>, opening: nat, closing: u8)
      requires opening < |bytes|
      ensures this.bytes == After(bytes, opening + 1) && this.closing == closing && first && !finished
    {
      this.bytes := After(bytes, opening + 1);
      this.closing := closing;
      first := true;
      finished := false;
    }

    method Skip(position: nat)
      requires position <= |bytes|
      modifies `bytes
      ensures bytes == After(old(bytes), position + SpaceRun(After(old(bytes), position)))
      ensures bytes == After(After(old(bytes), position), SpaceRun(After(old(bytes), position)))
    {
      var end := Whitespace(bytes, position);
      AfterAgain(bytes, position, end - position);
      bytes := After(bytes, end);
    }

    /** Up to the next value; returns its key, or `None` at the end of the container. */
    method NextKey() returns (r: Result<Option<Option<JsonString>>, JsonError>)
      modifies this
      ensures finished <==> old(finished) || (r.Ok? && r.value.None?)
      ensures
        match MemberFront(old(bytes), closing, old(first))
        case Err(e) => r == Err(e)
        case Ok(None) =>
          && r == Ok(None) && SpaceRun(old(bytes)) < |old(bytes)|
          && bytes == After(old(bytes), SpaceRun(old(bytes)) + 1)
        case Ok(Some(at)) =>
          && r == Ok(Some(MemberKey(old(bytes), closing, old(first)))) && bytes == After(old(bytes), at)
          && !first
    {
      hide SpaceRun, After, KeyLength, KeyString;
      ghost var start := bytes;
      AfterAgain(bytes, 0, SpaceRun(bytes));
      NothingBefore(bytes);
      Skip(0);
      ghost var space := SpaceRun(start);
      if Begins(bytes, closing) {
        AfterAgain(start, space, 1);
        bytes := After(bytes, 1);
        finished := true;
        return Ok(None);
      }
      ghost var gap := 0;
      NothingBefore(bytes);
      if !first {
        if !Begins(bytes, COMMA) {
          return Err(InvalidSyntax);
        }
        gap := 1 + SpaceRun(After(bytes, 1));
        AfterAgain(start, space, gap);
        Skip(1);
      }
      first := false;
      NothingBefore(bytes);
      AfterAgain(start, 0, space + gap);
      if closing != OBJECT_END {
        return Ok(Some(None));
      }
      ghost var keyed := bytes;
      var key :- TakeKey();
      AfterAgain(start, space + gap, KeyLength(keyed).value);
      r := Ok(Some(Some(key)));
    }

    /** A string, a colon, and the space around it. */
    method TakeKey() returns (r: Result<JsonString, JsonError>)
      modifies `bytes
      ensures
        match KeyLength(old(bytes))
        case Err(e) => r == Err(e)
        case Ok(n) => Some(r) == KeyString(old(bytes)) && r.Ok? && bytes == After(old(bytes), n)
    {
      hide SpaceRun, After, Upto, StringLength, StringValue;
      ghost var keyed := bytes;
      if !Begins(bytes, QUOTE) {
        return Err(InvalidSyntax);
      }
      NothingBefore(bytes);
      var end :- ParseString(bytes, 0);
      StringHasValue(bytes, end);
      var key := StringValue(Upto(bytes, end)).value;
      Skip(end);
      if !Begins(bytes, COLON) {
        return Err(InvalidSyntax);
      }
      Skip(1);
      KeyBehind(keyed, end);
      r := Ok(key);
    }

    /** The next member, its value validated where it stands; `None` at the end of the container. */
    method NextInner(depth: nat) returns (r: Result<Option<Member>, JsonError>)
      modifies this
      ensures finished <==> old(finished) || (r.Ok? && r.value.None?)
      ensures
        match MemberFront(old(bytes), closing, old(first))
        case Err(e) => r == Err(e)
        case Ok(None) =>
          && r == Ok(None) && SpaceRun(old(bytes)) < |old(bytes)|
          && bytes == After(old(bytes), SpaceRun(old(bytes)) + 1)
        case Ok(Some(at)) =>
          var text := After(old(bytes), at);
          match ValueLength(text, depth)
          case Err(e) => r == Err(e)
          case Ok(n) =>
            && r == Ok(Some(Member(MemberKey(old(bytes), closing, old(first)), Upto(text, n))))
            && bytes == After(text, n) && !first
      decreases Room(depth), 1
    {
      hide SpaceRun, After, Upto, MemberFront, ValueLength, MemberKey, Room;
      var front :- NextKey();
      if front.None? {
        return Ok(None);
      }
      NothingBefore(bytes);
      var end :- ParseValue(bytes, 0, depth);
      var value := Upto(bytes, end);
      bytes := After(bytes, end);
      r := Ok(Some(Member(front.value, value)));
    }

    /** The iterator's view: after an error, or the end, there is nothing more. */
    method Next(depth: nat) returns (r: Option<Result<Member, JsonError>>)
      modifies this
      ensures old(finished) ==> r == None && bytes == old(bytes) && finished && first == old(first)
      ensures !old(finished) ==> (finished <==> r.None? || r.value.Err?)
      ensures !old(finished) ==>
        match MemberFront(old(bytes), closing, old(first))
        case Err(e) => r == Some(Err(e))
        case Ok(None) =>
          && r == None && SpaceRun(old(bytes)) < |old(bytes)|
          && bytes == After(old(bytes), SpaceRun(old(bytes)) + 1)
        case Ok(Some(at)) =>
          var text := After(old(bytes), at);
          match ValueLength(text, depth)
          case Err(e) => r == Some(Err(e))
          case Ok(n) =>
            && r == Some(Ok(Member(MemberKey(old(bytes), closing, old(first)), Upto(text, n))))
            && bytes == After(text, n) && !first
      decreases Room(depth), 2
    {
      hide SpaceRun, After, Upto, MemberFront, ValueLength, MemberKey;
      if finished {
        return None;
      }
      var result := NextInner(depth);
      if result.Err? {
        finished := true;
        return Some(Err(result.error));
      }
      r := if result.value.None? then None else Some(Ok(result.value.value));
    }
  }

  method Literal(bytes: seq<u8>, position: nat, literal: seq<u8>) returns (r: Result<nat, JsonError>)
    requires position <= |bytes|
    ensures
      match LiteralLength(After(bytes, position), literal)
      case Err(e) => r == Err(e)
      case Ok(n) => r == Ok(position + n)
  {
    assert position + |literal| <= |bytes|
        ==> bytes[position..position + |literal|] == After(bytes, position)[..|literal|];
    if position + |literal| <= |bytes| && bytes[position..position + |literal|] == literal {
      return Ok(position + |literal|);
    }
    r := Err(InvalidSyntax);
  }

  method ParseScalar(bytes: seq<u8>, position: nat) returns (r: Result<nat, JsonError>)
    requires position <= |bytes|
    ensures
      match ScalarLength(After(bytes, position))
      case Err(e) => r == Err(e)
      case Ok(n) => r == Ok(position + n)
  {
    hide StringLength, NumberLength, LiteralLength;
    if position == |bytes| {
      return Err(InvalidSyntax);
    }
    AfterFirst(bytes, position);
    var byte := bytes[position];
    if byte == QUOTE {
      r := ParseString(bytes, position);
    } else if byte == 0x74 {
      r := Literal(bytes, position, TRUE);
    } else if byte == 0x66 {
      r := Literal(bytes, position, FALSE);
    } else if byte == 0x6e {
      r := Literal(bytes, position, NULL);
    } else if byte == MINUS || IsDigit(byte) {
      r := ParseNumber(bytes, position);
    } else {
      r := Err(InvalidSyntax);
    }
  }

  /** The end of the value at `position`, or why there is none. */
  method ParseValue(bytes: seq<u8>, position: nat, depth: nat) returns (r: Result<nat, JsonError>)
    requires position <= |bytes|
    ensures
      match ValueLength(After(bytes, position), depth)
      case Err(e) => r == Err(e)
      case Ok(n) => r == Ok(position + n)
    decreases Room(depth), 0
  {
    hide ScalarLength, MembersLength, After, Begins;
    if depth > MAX_DEPTH {
      return Err(NestingTooDeep);
    }
    BeginsAt(bytes, position, OBJECT_BEGIN);
    BeginsAt(bytes, position, ARRAY_BEGIN);
    if position < |bytes| && (bytes[position] == OBJECT_BEGIN || bytes[position] == ARRAY_BEGIN) {
      AfterAgain(bytes, position, 1);
      r := ParseContainer(bytes, position, if bytes[position] == OBJECT_BEGIN then OBJECT_END else ARRAY_END,
          depth + 1);
    } else {
      r := ParseScalar(bytes, position);
    }
  }

  /** The end of the container that opens at `position`. */
  method ParseContainer(bytes: seq<u8>, position: nat, closing: u8, depth: nat) returns (r: Result<nat, JsonError>)
    requires position < |bytes|
    ensures
      match MembersLength(After(bytes, position + 1), closing, true, depth)
      case Err(e) => r == Err(e)
      case Ok(n) => r == Ok(position + 1 + n)
    decreases Room(depth), 3
  {
    hide SpaceRun, After, Upto, MemberFront, ValueLength, MemberKey, Room;
    var container := new Container(bytes, position, closing);
    ghost var whole := MembersLength(container.bytes, closing, true, depth);
    var going := true;
    while going
      invariant container.closing == closing && fresh(container)
      invariant |container.bytes| <= |bytes|
      invariant going ==> !container.finished
      invariant going ==>
        match MembersLength(container.bytes, closing, container.first, depth)
        case Err(e) => whole == Err(e)
        case Ok(n) => whole == Ok(|bytes| - position - 1 - (|container.bytes| - n))
      invariant !going ==> whole == Ok(|bytes| - position - 1 - |container.bytes|)
      decreases going, |container.bytes|
    {
      var member := container.Next(depth);
      if member.None? {
        going := false;
      } else {
        var _ :- member.value;
      }
    }
    r := Ok(|bytes| - |container.bytes|);
  }

  lemma NothingBefore(bytes: seq<u8>)
    ensures After(bytes, 0) == bytes
  {
  }

  lemma StringHasValue(bytes: seq<u8>, n: nat)
    requires Begins(bytes, QUOTE) && StringLength(bytes) == Ok(n)
    ensures n <= |bytes| && StringValue(Upto(bytes, n)).Ok?
  {
    var inner := After(bytes, 1);
    assert inner[n - 2] == QUOTE;
    assert Upto(bytes, n)[n - 1] == bytes[n - 1] == inner[n - 2];
    assert Upto(bytes, n)[0] == bytes[0];
  }

  /** Where the value behind a key begins. */
  lemma KeyBehind(keyed: seq<u8>, end: nat)
    requires KeyLength(keyed).Ok? && StringLength(keyed) == Ok(end)
    ensures
      var tail := After(keyed, end);
      var colon := After(tail, SpaceRun(tail));
      colon != [] && After(After(colon, 1), SpaceRun(After(colon, 1))) == After(keyed, KeyLength(keyed).value)
  {
    hide SpaceRun, After, StringLength, Begins;
    var tail := After(keyed, end);
    var before := SpaceRun(tail);
    var colon := After(tail, before);
    ColonThere(colon);
    AfterAgain(colon, 1, SpaceRun(After(colon, 1)));
    AfterAgain(tail, before, 1 + SpaceRun(After(colon, 1)));
    AfterAgain(keyed, end, before + 1 + SpaceRun(After(colon, 1)));
  }

  lemma ColonThere(colon: seq<u8>)
    ensures Begins(colon, COLON) ==> colon != []
  {
  }
}
