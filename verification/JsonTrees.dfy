/** JSON texts as syntax trees that print themselves (RFC 8259 sections 2 to 7,
    with surrogates in pairs). The validator of JsonGrammar accepts exactly what
    trees print, as long as they are at most 64 deep; JsonRfc compares it with
    the grammar of the RFC itself. Every printing function takes what follows, so
    that the text of a tree is always seen in front of its continuation. */
module JsonTrees {
  import opened Numbers
  import opened Results
  import opened AsciiText
  import opened JsonText
  import opened JsonGrammar

  // ----- trees

  datatype Exponent = Exponent(letter: u8, sign: Option<u8>, digits: seq<u8>)

  datatype Number = Number(negative: bool, whole: seq<u8>, fraction: Option<seq<u8>>, exponent: Option<Exponent>)

  /** A byte that stands for itself, a short escape, a code unit, or a surrogate pair. */
  datatype Character = Plain(byte: u8) | Short(letter: u8) | Unit(hex: seq<u8>) | Pair(high: seq<u8>, low: seq<u8>)

  datatype Scalar = Literal(text: seq<u8>) | Numeric(number: Number) | Text(characters: seq<Character>)

  datatype Key = Key(characters: seq<Character>, before: seq<u8>, behind: seq<u8>)

  /** A container holds its members, and the space before its closing bracket. */
  datatype Tree = Leaf(scalar: Scalar) | Box(closing: u8, members: Members, last: seq<u8>)

  /** `before` and `gap` are the space around the comma; the first member has no gap. */
  datatype Members = End | More(before: seq<u8>, gap: seq<u8>, key: Option<Key>, value: Tree, later: Members)

  // ----- which trees are well formed

  predicate ValidExponent(e: Exponent)
  {
    && (e.letter == 0x65 || e.letter == 0x45) && AllDigits(e.digits)
    && (e.sign.Some? ==> e.sign.value == 0x2b || e.sign.value == MINUS)
  }

  predicate ValidNumber(n: Number)
  {
    && AllDigits(n.whole) && (n.whole[0] == ZERO ==> |n.whole| == 1)
    && (n.fraction.Some? ==> AllDigits(n.fraction.value))
    && (n.exponent.Some? ==> ValidExponent(n.exponent.value))
  }

  predicate ValidCharacter(c: Character)
  {
    match c
    case Plain(byte) => byte >= 0x20 && byte != QUOTE && byte != BACKSLASH
    case Short(letter) => letter in {QUOTE, BACKSLASH, 0x2f, 0x62, 0x66, 0x6e, 0x72, 0x74}
    case Unit(hex) =>
      |hex| == 4 && UnicodeEscape(hex).Ok? && !IsHigh(UnicodeEscape(hex).value) && !IsLow(UnicodeEscape(hex).value)
    case Pair(high, low) =>
      && |high| == 4 && UnicodeEscape(high).Ok? && IsHigh(UnicodeEscape(high).value)
      && |low| == 4 && UnicodeEscape(low).Ok? && IsLow(UnicodeEscape(low).value)
  }

  predicate ValidText(characters: seq<Character>)
  {
    forall k :: 0 <= k < |characters| ==> ValidCharacter(characters[k])
  }

  predicate ValidScalar(s: Scalar)
  {
    match s
    case Literal(text) => text == TRUE || text == FALSE || text == NULL
    case Numeric(number) => ValidNumber(number)
    case Text(characters) => ValidText(characters)
  }

  predicate ValidKey(key: Key)
  {
    ValidText(key.characters) && Blank(key.before) && Blank(key.behind)
  }

  predicate ValidTree(t: Tree)
  {
    match t
    case Leaf(scalar) => ValidScalar(scalar)
    case Box(closing, members, last) =>
      (closing == OBJECT_END || closing == ARRAY_END) && Blank(last) && ValidMembers(members, closing, true)
  }

  predicate ValidMembers(m: Members, closing: u8, first: bool)
  {
    match m
    case End => true
    case More(before, gap, key, value, later) =>
      && Blank(before) && Blank(gap) && (first ==> gap == [])
      && (key.Some? <==> closing == OBJECT_END) && (key.Some? ==> ValidKey(key.value))
      && ValidTree(value) && ValidMembers(later, closing, false)
  }

  /** How many levels there are inside. */
  function Height(t: Tree): nat
  {
    match t
    case Leaf(_) => 0
    case Box(_, members, _) => MembersHeight(members)
  }

  function MembersHeight(m: Members): nat
  {
    match m
    case End => 0
    case More(_, _, _, value, later) => if 1 + Height(value) > MembersHeight(later) then 1 + Height(value)
        else MembersHeight(later)
  }

  // ----- printing

  function PrintExponent(e: Exponent, tail: seq<u8>): seq<u8>
  {
    [e.letter] + ((if e.sign.Some? then [e.sign.value] else []) + (e.digits + tail))
  }

  function PrintFraction(fraction: Option<seq<u8>>, tail: seq<u8>): seq<u8>
  {
    if fraction.Some? then [POINT] + (fraction.value + tail) else tail
  }

  function PrintNumber(n: Number, tail: seq<u8>): seq<u8>
  {
    (if n.negative then [MINUS] else [])
      + (n.whole + PrintFraction(n.fraction, if n.exponent.Some? then PrintExponent(n.exponent.value, tail) else tail))
  }

  function PrintCharacter(c: Character): seq<u8>
  {
    match c
    case Plain(byte) => [byte]
    case Short(letter) => [BACKSLASH, letter]
    case Unit(hex) => [BACKSLASH, 0x75] + hex
    case Pair(high, low) => [BACKSLASH, 0x75] + (high + ([BACKSLASH, 0x75] + low))
  }

  /** Characters, the closing quote, and what follows. */
  function PrintCharacters(characters: seq<Character>, tail: seq<u8>): seq<u8>
  {
    if characters == [] then [QUOTE] + tail else PrintCharacter(characters[0]) + PrintCharacters(characters[1..], tail)
  }

  function PrintString(characters: seq<Character>, tail: seq<u8>): seq<u8>
  {
    [QUOTE] + PrintCharacters(characters, tail)
  }

  function PrintScalar(s: Scalar, tail: seq<u8>): seq<u8>
  {
    match s
    case Literal(text) => text + tail
    case Numeric(number) => PrintNumber(number, tail)
    case Text(characters) => PrintString(characters, tail)
  }

  function PrintKey(key: Key, tail: seq<u8>): seq<u8>
  {
    PrintString(key.characters, key.before + ([COLON] + (key.behind + tail)))
  }

  function Opening(closing: u8): u8
  {
    if closing == OBJECT_END then OBJECT_BEGIN else ARRAY_BEGIN
  }

  function PrintTree(t: Tree, tail: seq<u8>): seq<u8>
  {
    match t
    case Leaf(scalar) => PrintScalar(scalar, tail)
    case Box(closing, members, last) => [Opening(closing)] + PrintMembers(members, true, last + ([closing] + tail))
  }

  function PrintMembers(m: Members, first: bool, tail: seq<u8>): seq<u8>
  {
    match m
    case End => tail
    case More(before, gap, key, value, later) =>
      var item := PrintTree(value, PrintMembers(later, false, tail));
      var keyed := if key.Some? then PrintKey(key.value, item) else item;
      before + (if first then keyed else [COMMA] + (gap + keyed))
  }

  // ----- tools

  lemma AfterFront(front: seq<u8>, tail: seq<u8>)
    ensures After(front + tail, |front|) == tail
  {
  }

  lemma BlankFront(space: seq<u8>, tail: seq<u8>)
    requires Blank(space) && (tail == [] || !IsSpace(tail[0]))
    ensures SpaceRun(space + tail) == |space| && After(space + tail, |space|) == tail
  {
    var text := space + tail;
    assert forall k :: 0 <= k < |space| ==> text[k] == space[k];
    SpaceRunUnique(text, |space|);
    AfterFront(space, tail);
  }

  lemma DigitsFront(digits: seq<u8>, tail: seq<u8>)
    requires AllDigits(digits) && (tail == [] || !IsDigit(tail[0]))
    ensures DigitRun(digits + tail) == |digits| && After(digits + tail, |digits|) == tail
  {
    var text := digits + tail;
    assert forall k :: 0 <= k < |digits| ==> text[k] == digits[k];
    DigitRunUnique(text, |digits|);
    AfterFront(digits, tail);
  }

  /** What may follow a number: nothing that would continue it. */
  predicate Stops(tail: seq<u8>)
  {
    tail == [] || !(IsDigit(tail[0]) || tail[0] == POINT || tail[0] == 0x65 || tail[0] == 0x45)
  }

  // ----- printed texts are accepted

  lemma ExponentAccepted(exponent: Option<Exponent>, tail: seq<u8>)
    requires (exponent.Some? ==> ValidExponent(exponent.value)) && Stops(tail)
    ensures
      var text := if exponent.Some? then PrintExponent(exponent.value, tail) else tail;
      ExponentLength(text) == Ok(|text| - |tail|) && (text == [] || !IsDigit(text[0])) && !Begins(text, POINT)
  {
    hide DigitRun, SpaceRun;
    if exponent.Some? {
      var e := exponent.value;
      DigitsFront(e.digits, tail);
      var signed := (if e.sign.Some? then [e.sign.value] else []) + (e.digits + tail);
      AfterFront([e.letter], signed);
      assert IsDigit(e.digits[0]);
      if e.sign.Some? {
        assert PrintExponent(e, tail) == [e.letter, e.sign.value] + (e.digits + tail);
        AfterFront([e.letter, e.sign.value], e.digits + tail);
      } else {
        assert signed == e.digits + tail && signed[0] == e.digits[0];
      }
    }
  }

  lemma FractionAccepted(fraction: Option<seq<u8>>, tail: seq<u8>)
    requires (fraction.Some? ==> AllDigits(fraction.value)) && (tail == [] || !IsDigit(tail[0])) && !Begins(tail, POINT)
    ensures
      var text := PrintFraction(fraction, tail);
      && FractionLength(text) == Ok(|text| - |tail|) && After(text, |text| - |tail|) == tail
      && (text == [] || !IsDigit(text[0]))
  {
    hide DigitRun;
    if fraction.Some? {
      DigitsFront(fraction.value, tail);
      AfterFront([POINT], fraction.value + tail);
      assert PrintFraction(fraction, tail) == ([POINT] + fraction.value) + tail;
      AfterFront([POINT] + fraction.value, tail);
    }
  }

  lemma IntegerAccepted(whole: seq<u8>, tail: seq<u8>)
    requires AllDigits(whole) && (whole[0] == ZERO ==> |whole| == 1) && (tail == [] || !IsDigit(tail[0]))
    ensures IntegerLength(whole + tail) == Ok(|whole|) && After(whole + tail, |whole|) == tail
  {
    hide DigitRun;
    DigitsFront(whole, tail);
  }

  lemma NumberAccepted(n: Number, tail: seq<u8>)
    requires ValidNumber(n) && Stops(tail)
    ensures NumberLength(PrintNumber(n, tail)) == Ok(|PrintNumber(n, tail)| - |tail|)
  {
    hide IntegerLength, FractionLength, ExponentLength, PrintExponent, PrintFraction, After;
    var third := if n.exponent.Some? then PrintExponent(n.exponent.value, tail) else tail;
    var second := PrintFraction(n.fraction, third);
    ExponentAccepted(n.exponent, tail);
    FractionAccepted(n.fraction, third);
    IntegerAccepted(n.whole, second);
    var sign := if n.negative then [MINUS] else [];
    assert IsDigit(n.whole[0]);
    AfterFront(sign, n.whole + second);
    assert Begins(sign + (n.whole + second), MINUS) <==> n.negative;
  }

  lemma CharacterAccepted(c: Character, tail: seq<u8>)
    requires ValidCharacter(c)
    ensures
      var text := PrintCharacter(c) + tail;
      && After(text, |PrintCharacter(c)|) == tail && text[0] == PrintCharacter(c)[0]
      && (c.Plain? ==> text[0] == c.byte)
      && (!c.Plain? ==>
            text[0] == BACKSLASH && EscapedCharacter(text).Ok? && EscapedCharacter(text).value.1 == |PrintCharacter(c)|)
  {
    hide HexValue;
    AfterFront(PrintCharacter(c), tail);
    var text := PrintCharacter(c) + tail;
    match c
    case Plain(_) =>
    case Short(_) =>
    case Unit(hex) =>
      assert text == [BACKSLASH, 0x75] + (hex + tail);
      AfterFront([BACKSLASH, 0x75], hex + tail);
      HexFront(hex, tail);
    case Pair(high, low) =>
      assert text == [BACKSLASH, 0x75] + (high + ([BACKSLASH, 0x75] + (low + tail)));
      AfterFront([BACKSLASH, 0x75], high + ([BACKSLASH, 0x75] + (low + tail)));
      HexFront(high, [BACKSLASH, 0x75] + (low + tail));
      HexFront(low, tail);
      assert high + ([BACKSLASH, 0x75] + (low + tail)) == (high + [BACKSLASH, 0x75]) + (low + tail);
      AfterFront(high + [BACKSLASH, 0x75], low + tail);
  }

  lemma HexFront(hex: seq<u8>, tail: seq<u8>)
    requires |hex| == 4
    ensures UnicodeEscape(hex + tail) == UnicodeEscape(hex)
  {
    hide HexValue;
    var text := hex + tail;
    assert text[0] == hex[0] && text[1] == hex[1] && text[2] == hex[2] && text[3] == hex[3];
  }

  lemma {:induction false} CharactersAccepted(characters: seq<Character>, tail: seq<u8>)
    requires ValidText(characters)
    ensures CharactersLength(PrintCharacters(characters, tail)) == Ok(|PrintCharacters(characters, tail)| - |tail|)
  {
    hide EscapedCharacter, After, PrintCharacter;
    if characters != [] {
      assert ValidCharacter(characters[0]);
      assert ValidText(characters[1..]);
      CharactersAccepted(characters[1..], tail);
      CharacterAccepted(characters[0], PrintCharacters(characters[1..], tail));
      PlainIsPlain(characters[0]);
    }
  }

  lemma PlainIsPlain(c: Character)
    requires ValidCharacter(c)
    ensures PrintCharacter(c) != []
    ensures c.Plain? ==> PrintCharacter(c) == [c.byte]
    ensures !c.Plain? ==> PrintCharacter(c)[0] == BACKSLASH
  {
  }

  lemma StringAccepted(characters: seq<Character>, tail: seq<u8>)
    requires ValidText(characters)
    ensures StringLength(PrintString(characters, tail)) == Ok(|PrintString(characters, tail)| - |tail|)
  {
    hide PrintCharacters, CharactersLength;
    CharactersAccepted(characters, tail);
    AfterFront([QUOTE], PrintCharacters(characters, tail));
  }

  predicate EndsWith(text: seq<u8>, tail: seq<u8>)
  {
    |tail| <= |text| && After(text, |text| - |tail|) == tail
  }

  lemma EndsBehind(front: seq<u8>, text: seq<u8>, tail: seq<u8>)
    requires EndsWith(text, tail)
    ensures EndsWith(front + text, tail)
  {
    assert (front + text)[|front + text| - |tail|..] == text[|text| - |tail|..];
  }

  lemma EndsItself(tail: seq<u8>)
    ensures EndsWith(tail, tail)
  {
  }

  lemma NumberEnds(n: Number, tail: seq<u8>)
    ensures EndsWith(PrintNumber(n, tail), tail)
  {
    hide EndsWith;
    EndsItself(tail);
    var third := if n.exponent.Some? then PrintExponent(n.exponent.value, tail) else tail;
    if n.exponent.Some? {
      var e := n.exponent.value;
      EndsBehind(e.digits, tail, tail);
      EndsBehind(if e.sign.Some? then [e.sign.value] else [], e.digits + tail, tail);
      EndsBehind([e.letter], (if e.sign.Some? then [e.sign.value] else []) + (e.digits + tail), tail);
    }
    if n.fraction.Some? {
      EndsBehind(n.fraction.value, third, tail);
      EndsBehind([POINT], n.fraction.value + third, tail);
    }
    var second := PrintFraction(n.fraction, third);
    EndsBehind(n.whole, second, tail);
    EndsBehind(if n.negative then [MINUS] else [], n.whole + second, tail);
  }

  lemma {:induction false} StringEnds(characters: seq<Character>, tail: seq<u8>)
    ensures EndsWith(PrintCharacters(characters, tail), tail) && EndsWith(PrintString(characters, tail), tail)
  {
    hide EndsWith, PrintCharacter;
    if characters == [] {
      EndsItself(tail);
      EndsBehind([QUOTE], tail, tail);
    } else {
      StringEnds(characters[1..], tail);
      EndsBehind(PrintCharacter(characters[0]), PrintCharacters(characters[1..], tail), tail);
    }
    EndsBehind([QUOTE], PrintCharacters(characters, tail), tail);
  }

  lemma {:induction false} TreeEnds(t: Tree, tail: seq<u8>)
    ensures EndsWith(PrintTree(t, tail), tail)
  {
    hide EndsWith, PrintNumber, PrintString;
    EndsItself(tail);
    match t
    case Leaf(Literal(text)) => EndsBehind(text, tail, tail);
    case Leaf(Numeric(number)) => NumberEnds(number, tail);
    case Leaf(Text(characters)) => StringEnds(characters, tail);
    case Box(closing, members, last) =>
      EndsBehind([closing], tail, tail);
      EndsBehind(last, [closing] + tail, tail);
      MembersEnd(members, true, last + ([closing] + tail), tail);
      EndsBehind([Opening(closing)], PrintMembers(members, true, last + ([closing] + tail)), tail);
  }

  lemma {:induction false} MembersEnd(m: Members, first: bool, behind: seq<u8>, tail: seq<u8>)
    requires EndsWith(behind, tail)
    ensures EndsWith(PrintMembers(m, first, behind), tail)
  {
    hide EndsWith, PrintKey;
    match m
    case End =>
    case More(before, gap, key, value, later) =>
      MembersEnd(later, false, behind, tail);
      var rest := PrintMembers(later, false, behind);
      TreeEnds(value, rest);
      var item := PrintTree(value, rest);
      EndsThrough(item, rest, tail);
      var keyed := if key.Some? then PrintKey(key.value, item) else item;
      if key.Some? {
        KeyEnds(key.value, item);
        EndsThrough(keyed, item, tail);
      }
      EndsBehind(gap, keyed, tail);
      EndsBehind([COMMA], gap + keyed, tail);
      EndsBehind(before, if first then keyed else [COMMA] + (gap + keyed), tail);
  }

  lemma EndsThrough(text: seq<u8>, middle: seq<u8>, tail: seq<u8>)
    requires EndsWith(text, middle) && EndsWith(middle, tail)
    ensures EndsWith(text, tail)
  {
    assert text[|text| - |tail|..] == text[|text| - |middle|..][|middle| - |tail|..];
  }

  lemma KeyEnds(key: Key, tail: seq<u8>)
    ensures EndsWith(PrintKey(key, tail), tail)
  {
    hide EndsWith, PrintString;
    EndsItself(tail);
    EndsBehind(key.behind, tail, tail);
    EndsBehind([COLON], key.behind + tail, tail);
    EndsBehind(key.before, [COLON] + (key.behind + tail), tail);
    StringEnds(key.characters, key.before + ([COLON] + (key.behind + tail)));
    EndsThrough(PrintKey(key, tail), key.before + ([COLON] + (key.behind + tail)), tail);
  }

  // ----- the first byte of a value

  predicate StartsValue(text: seq<u8>)
  {
    text != [] && (text[0] in {QUOTE, 0x74, 0x66, 0x6e, MINUS, OBJECT_BEGIN, ARRAY_BEGIN} || IsDigit(text[0]))
  }

  lemma TreeStarts(t: Tree, tail: seq<u8>)
    requires ValidTree(t)
    ensures StartsValue(PrintTree(t, tail))
    ensures t.Box? <==> Begins(PrintTree(t, tail), OBJECT_BEGIN) || Begins(PrintTree(t, tail), ARRAY_BEGIN)
  {
    if t.Leaf? && t.scalar.Numeric? {
      assert IsDigit(t.scalar.number.whole[0]);
    }
  }

  lemma ScalarAccepted(s: Scalar, tail: seq<u8>)
    requires ValidScalar(s) && Stops(tail)
    ensures ScalarLength(PrintScalar(s, tail)) == Ok(|PrintScalar(s, tail)| - |tail|)
  {
    hide NumberLength, StringLength, PrintString;
    TreeStarts(Leaf(s), tail);
    match s
    case Literal(text) => assert text <= PrintScalar(s, tail) && PrintScalar(s, tail)[0] == text[0];
    case Numeric(number) =>
      NumberAccepted(number, tail);
      NumberStarts(number, tail);
    case Text(characters) =>
      StringAccepted(characters, tail);
      StringStarts(characters, tail);
  }

  lemma NumberStarts(n: Number, tail: seq<u8>)
    requires ValidNumber(n)
    ensures PrintNumber(n, tail) != [] && (PrintNumber(n, tail)[0] == MINUS || IsDigit(PrintNumber(n, tail)[0]))
  {
    assert IsDigit(n.whole[0]);
  }

  lemma StringStarts(characters: seq<Character>, tail: seq<u8>)
    ensures Begins(PrintString(characters, tail), QUOTE)
  {
  }

  lemma KeyAccepted(key: Key, tail: seq<u8>)
    requires ValidKey(key) && (tail == [] || !IsSpace(tail[0]))
    ensures KeyLength(PrintKey(key, tail)) == Ok(|PrintKey(key, tail)| - |tail|) && Begins(PrintKey(key, tail), QUOTE)
  {
    hide PrintString, StringLength, SpaceRun, Blank, After;
    var colon := [COLON] + (key.behind + tail);
    var behind := key.before + colon;
    StringAccepted(key.characters, behind);
    StringStarts(key.characters, behind);
    StringEnds(key.characters, behind);
    BlankFront(key.before, colon);
    BlankFront(key.behind, tail);
    AfterFront([COLON], key.behind + tail);
  }

  // ----- trees are accepted

  /** Every tree that is not too deep is accepted, up to its last byte and no further. */
  lemma {:induction false} TreeAccepted(t: Tree, tail: seq<u8>, depth: nat)
    requires ValidTree(t) && depth + Height(t) <= MAX_DEPTH && Stops(tail)
    ensures ValueLength(PrintTree(t, tail), depth) == Ok(|PrintTree(t, tail)| - |tail|)
    decreases t
  {
    hide ScalarLength, MembersLength, PrintScalar, After, Stops;
    TreeStarts(t, tail);
    match t
    case Leaf(scalar) => ScalarAccepted(scalar, tail);
    case Box(closing, members, last) =>
      var inside := PrintMembers(members, true, last + ([closing] + tail));
      AfterFront([Opening(closing)], inside);
      MembersAccepted(members, closing, true, last, tail, depth + 1);
  }

  lemma {:induction false} MembersAccepted(m: Members, closing: u8, first: bool, last: seq<u8>, tail: seq<u8>,
      depth: nat)
    requires ValidMembers(m, closing, first) && Blank(last) && (closing == OBJECT_END || closing == ARRAY_END)
    requires depth + MembersHeight(m) <= MAX_DEPTH + 1
    ensures
      var text := PrintMembers(m, first, last + ([closing] + tail));
      MembersLength(text, closing, first, depth) == Ok(|text| - |tail|)
    decreases m
  {
    hide ValueLength, MemberFront, After, Blank, Stops;
    var behind := last + ([closing] + tail);
    match m
    case End =>
      ClosingFront(closing, first, last, tail);
    case More(before, gap, key, value, later) =>
      var rest := PrintMembers(later, false, behind);
      var item := PrintTree(value, rest);
      RestStops(later, closing, last, tail);
      TreeAccepted(value, rest, depth);
      TreeEnds(value, rest);
      MembersAccepted(later, closing, false, last, tail, depth);
      MemberAccepted(m, closing, first, behind);
  }

  lemma AfterNothing(text: seq<u8>)
    ensures After(text, 0) == text
  {
  }

  lemma ClosingFront(closing: u8, first: bool, last: seq<u8>, tail: seq<u8>)
    requires Blank(last) && (closing == OBJECT_END || closing == ARRAY_END)
    ensures
      var text := last + ([closing] + tail);
      MemberFront(text, closing, first) == Ok(None) && SpaceRun(text) == |last|
  {
    hide SpaceRun, Blank, After;
    BlankFront(last, [closing] + tail);
  }

  /** What follows a member does not continue a number. */
  lemma RestStops(later: Members, closing: u8, last: seq<u8>, tail: seq<u8>)
    requires ValidMembers(later, closing, false) && Blank(last) && (closing == OBJECT_END || closing == ARRAY_END)
    ensures Stops(PrintMembers(later, false, last + ([closing] + tail)))
  {
    hide PrintTree, PrintKey;
    if later.End? {
      assert last != [] ==> IsSpace(last[0]);
    } else {
      assert later.before != [] ==> IsSpace(later.before[0]);
    }
  }

  /** A member's space and comma, in front of its key or value. */
  lemma MemberParts(before: seq<u8>, gap: seq<u8>, keyed: seq<u8>, first: bool)
    requires Blank(before) && Blank(gap) && (first ==> gap == []) && keyed != [] && !IsSpace(keyed[0])
    ensures
      var body := if first then keyed else [COMMA] + (gap + keyed);
      && body != [] && body[0] == (if first then keyed[0] else COMMA) && |keyed| <= |body|
      && SpaceRun(before + body) == |before| && After(before + body, |before|) == body
      && GapLength(body, first) == Ok(|body| - |keyed|) && After(body, |body| - |keyed|) == keyed
  {
    hide SpaceRun, Blank, After;
    var body := if first then keyed else [COMMA] + (gap + keyed);
    BlankFront(before, body);
    AfterNothing(keyed);
    if !first {
      AfterFront([COMMA], gap + keyed);
      BlankFront(gap, keyed);
      AfterFront([COMMA] + gap, keyed);
      assert body == ([COMMA] + gap) + keyed;
    }
  }

  /** The front of a member, when it is known whether its key is accepted. */
  lemma MemberSeen(m: Members, closing: u8, first: bool, behind: seq<u8>)
    requires m.More? && Blank(m.before) && Blank(m.gap) && (first ==> m.gap == [])
        && (m.key.Some? <==> closing == OBJECT_END)
    requires closing == OBJECT_END || closing == ARRAY_END
    requires
      var item := PrintTree(m.value, PrintMembers(m.later, false, behind));
      && StartsValue(item)
      && (m.key.Some? ==>
            var keyed := PrintKey(m.key.value, item);
            KeyLength(keyed).Ok? ==> KeyLength(keyed).value == |keyed| - |item|)
    ensures
      var text := PrintMembers(m, first, behind);
      var item := PrintTree(m.value, PrintMembers(m.later, false, behind));
      && |item| <= |text| && After(text, |text| - |item|) == item
      && if m.key.Some? && KeyLength(PrintKey(m.key.value, item)).Err? then MemberFront(text, closing, first).Err?
         else MemberFront(text, closing, first) == Ok(Some(|text| - |item|))
  {
    hide PrintTree, PrintKey, KeyLength, SpaceRun, After, Blank, GapLength;
    var item := PrintTree(m.value, PrintMembers(m.later, false, behind));
    var keyed := if m.key.Some? then PrintKey(m.key.value, item) else item;
    EndsItself(item);
    AfterNothing(keyed);
    if m.key.Some? {
      KeyStarts(m.key.value, item);
      KeyEnds(m.key.value, item);
    }
    MemberParts(m.before, m.gap, keyed, first);
    EndsBehind(m.gap, keyed, item);
    EndsBehind([COMMA], m.gap + keyed, item);
    EndsBehind(m.before, if first then keyed else [COMMA] + (m.gap + keyed), item);
  }

  lemma KeyStarts(key: Key, tail: seq<u8>)
    ensures Begins(PrintKey(key, tail), QUOTE)
  {
    hide PrintCharacters;
  }

  lemma MemberAccepted(m: Members, closing: u8, first: bool, behind: seq<u8>)
    requires m.More? && ValidMembers(m, closing, first) && (closing == OBJECT_END || closing == ARRAY_END)
    ensures
      var text := PrintMembers(m, first, behind);
      var item := PrintTree(m.value, PrintMembers(m.later, false, behind));
      && |item| <= |text|
      && MemberFront(text, closing, first) == Ok(Some(|text| - |item|)) && After(text, |text| - |item|) == item
  {
    hide PrintTree, PrintKey, KeyLength, MemberFront, After, Blank, ValidTree, ValidKey;
    TreeStarts(m.value, PrintMembers(m.later, false, behind));
    if m.key.Some? {
      KeyAccepted(m.key.value, PrintTree(m.value, PrintMembers(m.later, false, behind)));
    }
    MemberSeen(m, closing, first, behind);
  }

  // ----- accepted texts are printed

  lemma Rejoin(text: seq<u8>, n: nat)
    requires n <= |text|
    ensures text == Upto(text, n) + After(text, n)
  {
  }

  lemma AfterTwice(text: seq<u8>, a: nat, b: nat)
    requires a + b <= |text|
    ensures After(After(text, a), b) == After(text, a + b)
  {
  }

  lemma FirstOf(text: seq<u8>)
    requires text != []
    ensures text == [text[0]] + After(text, 1)
  {
  }

  lemma DigitsOf(text: seq<u8>) returns (digits: seq<u8>)
    requires DigitRun(text) > 0
    ensures AllDigits(digits) && |digits| == DigitRun(text) && text == digits + After(text, |digits|)
  {
    DigitRunIs(text);
    digits := Upto(text, DigitRun(text));
    Rejoin(text, DigitRun(text));
  }

  lemma ExponentOf(text: seq<u8>) returns (exponent: Option<Exponent>)
    requires ExponentLength(text).Ok?
    ensures exponent.Some? ==> ValidExponent(exponent.value)
    ensures
      var tail := After(text, ExponentLength(text).value);
      text == if exponent.Some? then PrintExponent(exponent.value, tail) else tail
  {
    hide DigitRun, After, AllDigits;
    AfterNothing(text);
    if !Begins(text, 0x65) && !Begins(text, 0x45) {
      return None;
    }
    FirstOf(text);
    var behind := After(text, 1);
    var sign := if Begins(behind, 0x2b) || Begins(behind, MINUS) then 1 else 0;
    AfterTwice(text, 1, sign);
    var found, digits := SignOf(behind, sign);
    AfterTwice(text, 1 + sign, |digits|);
    exponent := Some(Exponent(text[0], found, digits));
  }

  lemma SignOf(behind: seq<u8>, sign: nat) returns (found: Option<u8>, digits: seq<u8>)
    requires sign == if Begins(behind, 0x2b) || Begins(behind, MINUS) then 1 else 0
    requires DigitRun(After(behind, sign)) > 0
    ensures AllDigits(digits) && |digits| == DigitRun(After(behind, sign))
    ensures found.Some? ==> found.value == 0x2b || found.value == MINUS
    ensures behind == (if found.Some? then [found.value] else []) + (digits + After(After(behind, sign), |digits|))
  {
    hide DigitRun, After, AllDigits;
    AfterNothing(behind);
    digits := DigitsOf(After(behind, sign));
    found := None;
    if sign == 1 {
      FirstOf(behind);
      found := Some(behind[0]);
    } else {
      assert [] + behind == behind;
    }
  }

  lemma FractionOf(text: seq<u8>) returns (fraction: Option<seq<u8>>)
    requires FractionLength(text).Ok?
    ensures fraction.Some? ==> AllDigits(fraction.value)
    ensures text == PrintFraction(fraction, After(text, FractionLength(text).value))
  {
    hide DigitRun, After, AllDigits;
    AfterNothing(text);
    if !Begins(text, POINT) {
      return None;
    }
    FirstOf(text);
    var digits := DigitsOf(After(text, 1));
    AfterTwice(text, 1, |digits|);
    fraction := Some(digits);
  }

  lemma WholeOf(text: seq<u8>) returns (whole: seq<u8>)
    requires IntegerLength(text).Ok?
    ensures AllDigits(whole) && (whole[0] == ZERO ==> |whole| == 1) && |whole| == IntegerLength(text).value
    ensures text == whole + After(text, |whole|)
  {
    hide DigitRun, After;
    if Begins(text, ZERO) {
      FirstOf(text);
      whole := [ZERO];
    } else {
      whole := DigitsOf(text);
      assert whole[0] == text[0];
    }
  }

  lemma NumberOf(text: seq<u8>) returns (n: Number)
    requires NumberLength(text).Ok?
    ensures ValidNumber(n) && text == PrintNumber(n, After(text, NumberLength(text).value))
  {
    hide IntegerLength, FractionLength, ExponentLength, After, AllDigits, ValidExponent, PrintExponent, PrintFraction;
    var minus := if Begins(text, MINUS) then 1 else 0;
    var magnitude := After(text, minus);
    AfterNothing(text);
    if minus == 1 {
      FirstOf(text);
    }
    var whole := WholeOf(magnitude);
    var behind := After(magnitude, |whole|);
    var fraction := FractionOf(behind);
    var cut := FractionLength(behind).value;
    var exponent := ExponentOf(After(behind, cut));
    n := Number(minus == 1, whole, fraction, exponent);
    AfterTwice(behind, cut, ExponentLength(After(behind, cut)).value);
    AfterTwice(magnitude, |whole|, cut + ExponentLength(After(behind, cut)).value);
    AfterTwice(text, minus, |whole| + cut + ExponentLength(After(behind, cut)).value);
    assert [] + magnitude == magnitude;
  }

  lemma CharacterOf(text: seq<u8>) returns (c: Character)
    requires Begins(text, BACKSLASH) && EscapedCharacter(text).Ok?
    ensures ValidCharacter(c) && !c.Plain? && |PrintCharacter(c)| == EscapedCharacter(text).value.1
    ensures text == PrintCharacter(c) + After(text, |PrintCharacter(c)|)
  {
    hide HexValue;
    var used := EscapedCharacter(text).value.1;
    Rejoin(text, used);
    if used == 2 {
      c := Short(text[1]);
    } else {
      var unit := After(text, 2);
      HexFront(Upto(unit, 4), After(unit, 4));
      Rejoin(unit, 4);
      if used == 6 {
        c := Unit(Upto(unit, 4));
      } else {
        var low := After(unit, 6);
        HexFront(Upto(low, 4), After(low, 4));
        Rejoin(low, 4);
        c := Pair(Upto(unit, 4), Upto(low, 4));
      }
    }
    assert PrintCharacter(c) == Upto(text, used);
  }

  lemma {:induction false} CharactersOf(text: seq<u8>) returns (characters: seq<Character>)
    requires CharactersLength(text).Ok?
    ensures ValidText(characters) && text == PrintCharacters(characters, After(text, CharactersLength(text).value))
    decreases |text|
  {
    hide EscapedCharacter, After, PrintCharacter, ValidCharacter;
    var n := CharactersLength(text).value;
    if text[0] == QUOTE {
      FirstOf(text);
      characters := [];
    } else if text[0] == BACKSLASH {
      var c := CharacterOf(text);
      var used := EscapedCharacter(text).value.1;
      var later := CharactersOf(After(text, used));
      AfterTwice(text, used, n - used);
      characters := [c] + later;
      assert characters[1..] == later;
    } else {
      FirstOf(text);
      PlainOf(text[0]);
      var later := CharactersOf(After(text, 1));
      AfterTwice(text, 1, n - 1);
      characters := [Plain(text[0])] + later;
      assert characters[1..] == later;
    }
  }

  lemma PlainOf(byte: u8)
    requires byte >= 0x20 && byte != QUOTE && byte != BACKSLASH
    ensures ValidCharacter(Plain(byte)) && PrintCharacter(Plain(byte)) == [byte]
  {
  }

  lemma StringOf(text: seq<u8>) returns (characters: seq<Character>)
    requires Begins(text, QUOTE) && StringLength(text).Ok?
    ensures ValidText(characters) && text == PrintString(characters, After(text, StringLength(text).value))
  {
    hide CharactersLength, After, PrintCharacters;
    FirstOf(text);
    characters := CharactersOf(After(text, 1));
    AfterTwice(text, 1, CharactersLength(After(text, 1)).value);
  }

  lemma ScalarOf(text: seq<u8>) returns (s: Scalar)
    requires ScalarLength(text).Ok?
    ensures ValidScalar(s) && text == PrintScalar(s, After(text, ScalarLength(text).value))
  {
    hide NumberLength, StringLength, PrintString, PrintNumber, ValidText;
    if Begins(text, QUOTE) {
      var characters := StringOf(text);
      s := Text(characters);
    } else if Begins(text, 0x74) || Begins(text, 0x66) || Begins(text, 0x6e) {
      s := Literal(if Begins(text, 0x74) then TRUE else if Begins(text, 0x66) then FALSE else NULL);
      Rejoin(text, |s.text|);
      assert Upto(text, |s.text|) == s.text;
    } else {
      var number := NumberOf(text);
      s := Numeric(number);
    }
  }

  lemma SpaceOf(text: seq<u8>) returns (space: seq<u8>)
    ensures Blank(space) && |space| == SpaceRun(text) && text == space + After(text, |space|)
  {
    SpaceRunIs(text);
    space := Upto(text, SpaceRun(text));
    Rejoin(text, SpaceRun(text));
  }

  lemma KeyOf(text: seq<u8>) returns (key: Key)
    requires KeyLength(text).Ok?
    ensures ValidKey(key) && text == PrintKey(key, After(text, KeyLength(text).value))
  {
    hide StringLength, SpaceRun, After, PrintString, Blank, ValidText;
    var n := StringLength(text).value;
    var characters := StringOf(text);
    var tail := After(text, n);
    var before := SpaceOf(tail);
    var colon := After(tail, |before|);
    FirstOf(colon);
    var behind := SpaceOf(After(colon, 1));
    key := Key(characters, before, behind);
    AfterTwice(colon, 1, |behind|);
    AfterTwice(tail, |before|, 1 + |behind|);
    AfterTwice(text, n, |before| + 1 + |behind|);
  }

  /** Every accepted value is the text of a tree that is not too deep. */
  lemma {:induction false} TreeOf(text: seq<u8>, depth: nat) returns (t: Tree)
    requires ValueLength(text, depth).Ok?
    ensures ValidTree(t) && depth + Height(t) <= MAX_DEPTH
    ensures text == PrintTree(t, After(text, ValueLength(text, depth).value))
    decreases |text|, 0
  {
    hide ScalarLength, MembersLength, PrintScalar, After, ValidScalar, Blank;
    if Begins(text, OBJECT_BEGIN) || Begins(text, ARRAY_BEGIN) {
      var closing := if Begins(text, OBJECT_BEGIN) then OBJECT_END else ARRAY_END;
      FirstOf(text);
      var members, last := MembersOf(After(text, 1), closing, true, depth + 1);
      t := Box(closing, members, last);
      AfterTwice(text, 1, MembersLength(After(text, 1), closing, true, depth + 1).value);
    } else {
      var s := ScalarOf(text);
      t := Leaf(s);
    }
  }

  lemma {:induction false} MembersOf(text: seq<u8>, closing: u8, first: bool, depth: nat)
    returns (m: Members, last: seq<u8>)
    requires MembersLength(text, closing, first, depth).Ok? && (closing == OBJECT_END || closing == ARRAY_END)
    requires 0 < depth <= MAX_DEPTH + 1
    ensures ValidMembers(m, closing, first) && Blank(last) && depth + MembersHeight(m) <= MAX_DEPTH + 1
    ensures text == PrintMembers(m, first,
        last + ([closing] + After(text, MembersLength(text, closing, first, depth).value)))
    decreases |text|, 1
  {
    hide ValueLength, MemberFront, SpaceRun, After, PrintTree, PrintKey, Blank, ValidKey;
    var n := MembersLength(text, closing, first, depth).value;
    match MemberFront(text, closing, first).value {
      case None =>
        last := ClosingOf(text, closing, first);
        m := End;
      case Some(at) =>
        var item := After(text, at);
        var size := ValueLength(item, depth).value;
        var value := TreeOf(item, depth);
        var later;
        later, last := MembersOf(After(item, size), closing, false, depth);
        var before, gap, key := FrontOf(text, closing, first);
        m := More(before, gap, key, value, later);
        AfterTwice(item, size, n - at - size);
        AfterTwice(text, at, n - at);
    }
  }

  lemma ClosingOf(text: seq<u8>, closing: u8, first: bool) returns (last: seq<u8>)
    requires MemberFront(text, closing, first) == Ok(None)
    ensures Blank(last) && SpaceRun(text) < |text| && text == last + ([closing] + After(text, SpaceRun(text) + 1))
  {
    hide SpaceRun, After, Blank;
    last := SpaceOf(text);
    FirstOf(After(text, |last|));
    AfterTwice(text, |last|, 1);
  }

  lemma FrontOf(text: seq<u8>, closing: u8, first: bool) returns (before: seq<u8>, gap: seq<u8>, key: Option<Key>)
    requires MemberFront(text, closing, first).Ok? && MemberFront(text, closing, first).value.Some?
    ensures Blank(before) && Blank(gap) && (first ==> gap == [])
    ensures (key.Some? <==> closing == OBJECT_END) && (key.Some? ==> ValidKey(key.value))
    ensures
      var item := After(text, MemberFront(text, closing, first).value.value);
      var keyed := if key.Some? then PrintKey(key.value, item) else item;
      text == before + (if first then keyed else [COMMA] + (gap + keyed))
  {
    hide SpaceRun, After, Blank, PrintKey, KeyLength, ValidKey;
    before := SpaceOf(text);
    var body := After(text, |before|);
    var skip := GapLength(body, first).value;
    gap := [];
    AfterNothing(body);
    NoSpace();
    if !first {
      FirstOf(body);
      gap := SpaceOf(After(body, 1));
      AfterTwice(body, 1, |gap|);
    }
    var keyed := After(body, skip);
    AfterNothing(keyed);
    key := None;
    var k := 0;
    if closing == OBJECT_END {
      var found := KeyOf(keyed);
      key := Some(found);
      k := KeyLength(keyed).value;
    }
    AfterTwice(body, skip, k);
    AfterTwice(text, |before|, skip + k);
  }

  lemma NoSpace()
    ensures Blank([])
  {
  }

  // ----- documents

  /** A text is accepted exactly if it is the text of a tree at most 64 deep, with space around it. */
  lemma DocumentGrammar(text: seq<u8>)
    ensures DocumentBounds(text).Ok? <==> exists front, t, back :: IsDocument(text, front, t, back)
  {
    hide ValidTree, Height, PrintTree, ValueLength, SpaceRun, Blank;
    if DocumentBounds(text).Ok? {
      var front, t, back := DocumentOf(text);
    }
    if exists front, t, back :: IsDocument(text, front, t, back) {
      var front, t, back :| IsDocument(text, front, t, back);
      DocumentAccepted(text, front, t, back);
    }
  }

  predicate IsDocument(text: seq<u8>, front: seq<u8>, t: Tree, back: seq<u8>)
  {
    Blank(front) && Blank(back) && ValidTree(t) && Height(t) <= MAX_DEPTH && text == front + PrintTree(t, back)
  }

  lemma DocumentOf(text: seq<u8>) returns (front: seq<u8>, t: Tree, back: seq<u8>)
    requires DocumentBounds(text).Ok?
    ensures IsDocument(text, front, t, back)
  {
    hide ValidTree, Height, PrintTree, ValueLength, SpaceRun, After, Blank;
    front := SpaceOf(text);
    var body := After(text, |front|);
    t := TreeOf(body, 0);
    back := After(body, ValueLength(body, 0).value);
    AfterTwice(text, |front|, ValueLength(body, 0).value);
    AllSpace(back);
  }

  lemma AllSpace(text: seq<u8>)
    requires SpaceRun(text) == |text|
    ensures Blank(text)
  {
    SpaceRunIs(text);
  }

  lemma DocumentAccepted(text: seq<u8>, front: seq<u8>, t: Tree, back: seq<u8>)
    requires IsDocument(text, front, t, back)
    ensures DocumentBounds(text) == Ok((|front|, |text| - |back|))
  {
    hide ValidTree, Height, PrintTree, ValueLength, SpaceRun, After, Blank;
    var body := PrintTree(t, back);
    TreeStarts(t, back);
    BlankFront(front, body);
    BlankStops(back);
    TreeAccepted(t, back, 0);
    TreeEnds(t, back);
    AfterTwice(text, |front|, |body| - |back|);
  }

  lemma BlankStops(text: seq<u8>)
    requires Blank(text)
    ensures Stops(text) && SpaceRun(text) == |text|
  {
    SpaceRunUnique(text, |text|);
  }
}
