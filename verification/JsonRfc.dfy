/** The validator (src/json.rs lines 99-112 and 286-386) and the grammar of RFC
    8259 itself, in which any four hexadecimal digits make an escape. The one
    difference: a surrogate that stands alone is rejected. */
module JsonRfc {
  import opened Numbers
  import opened Results
  import opened AsciiText
  import opened JsonText
  import opened JsonGrammar
  import opened JsonTrees

  // ----- trees of the RFC

  /** A character in the sense of section 7: surrogates are not paired. */
  predicate RfcCharacter(c: Character)
  {
    match c
    case Unit(hex) => |hex| == 4 && UnicodeEscape(hex).Ok?
    case Pair(_, _) => false
    case _ => ValidCharacter(c)
  }

  predicate RfcText(characters: seq<Character>)
  {
    forall k :: 0 <= k < |characters| ==> RfcCharacter(characters[k])
  }

  predicate RfcScalar(s: Scalar)
  {
    if s.Text? then RfcText(s.characters) else ValidScalar(s)
  }

  predicate RfcKey(key: Key)
  {
    RfcText(key.characters) && Blank(key.before) && Blank(key.behind)
  }

  predicate RfcTree(t: Tree)
  {
    match t
    case Leaf(scalar) => RfcScalar(scalar)
    case Box(closing, members, last) =>
      (closing == OBJECT_END || closing == ARRAY_END) && Blank(last) && RfcMembers(members, closing, true)
  }

  predicate RfcMembers(m: Members, closing: u8, first: bool)
  {
    match m
    case End => true
    case More(before, gap, key, value, later) =>
      && Blank(before) && Blank(gap) && (first ==> gap == [])
      && (key.Some? <==> closing == OBJECT_END) && (key.Some? ==> RfcKey(key.value))
      && RfcTree(value) && RfcMembers(later, closing, false)
  }

  // ----- surrogates

  predicate HighUnit(c: Character)
  {
    c.Unit? && UnicodeEscape(c.hex).Ok? && IsHigh(UnicodeEscape(c.hex).value)
  }

  predicate LowUnit(c: Character)
  {
    c.Unit? && UnicodeEscape(c.hex).Ok? && IsLow(UnicodeEscape(c.hex).value)
  }

  /** A high surrogate without a low one behind it, or a low one without a high one in front. */
  predicate Alone(characters: seq<Character>, k: nat)
    requires k < |characters|
  {
    || (HighUnit(characters[k]) && !(k + 1 < |characters| && LowUnit(characters[k + 1])))
    || (LowUnit(characters[k]) && !(k > 0 && HighUnit(characters[k - 1])))
  }

  predicate Paired(characters: seq<Character>)
  {
    forall k :: 0 <= k < |characters| ==> !Alone(characters, k)
  }

  predicate PairedTree(t: Tree)
  {
    match t
    case Leaf(scalar) => scalar.Text? ==> Paired(scalar.characters)
    case Box(_, members, _) => PairedMembers(members)
  }

  predicate PairedMembers(m: Members)
  {
    match m
    case End => true
    case More(_, _, key, value, later) =>
      && (key.Some? ==> Paired(key.value.characters))
      && PairedTree(value) && PairedMembers(later)
  }

  /** How many characters the first escape or byte takes. */
  function Step(characters: seq<Character>): nat
    requires characters != []
  {
    if HighUnit(characters[0]) && |characters| > 1 && LowUnit(characters[1]) then 2 else 1
  }

  lemma PairedStep(characters: seq<Character>)
    requires characters != []
    ensures !Alone(characters, 0) ==> (Paired(characters) <==> Paired(characters[Step(characters)..]))
  {
    hide UnicodeEscape;
    var n := Step(characters);
    var later := characters[n..];
    if !Alone(characters, 0) {
      assert forall k :: 0 <= k < |later| ==> later[k] == characters[n + k];
      forall k | 0 <= k < |later|
        ensures Alone(later, k) <==> Alone(characters, n + k)
      {
        SurrogatesDiffer(characters[n - 1]);
        assert k > 0 ==> later[k - 1] == characters[n + k - 1];
      }
      if Paired(later) {
        forall k | 0 <= k < |characters|
          ensures !Alone(characters, k)
        {
          if k >= n {
            assert !Alone(later, k - n);
          }
        }
      }
    }
  }

  lemma SurrogatesDiffer(c: Character)
    ensures !(HighUnit(c) && LowUnit(c))
  {
    hide UnicodeEscape;
  }

  // ----- strings

  /** What the scanner makes of the first character. */
  lemma FirstDecided(characters: seq<Character>, tail: seq<u8>)
    requires characters != [] && RfcText(characters)
    ensures
      var text := PrintCharacters(characters, tail);
      var n := Step(characters);
      var later := PrintCharacters(characters[n..], tail);
      && text != [] && text[0] != QUOTE && |later| < |text| && After(text, |text| - |later|) == later
      && (text[0] != BACKSLASH ==> text[0] >= 0x20 && n == 1 && |text| - |later| == 1 && !Alone(characters, 0))
      && (text[0] == BACKSLASH ==>
            if Alone(characters, 0) then EscapedCharacter(text) == Err(InvalidEscape)
            else EscapedCharacter(text).Ok? && EscapedCharacter(text).value.1 == |text| - |later|)
  {
    hide UnicodeEscape, EscapedCharacter, After;
    var c, rest := characters[0], PrintCharacters(characters[1..], tail);
    assert RfcCharacter(c);
    AfterFront(PrintCharacter(c), rest);
    match c
    case Plain(_) =>
    case Short(_) => CharacterAccepted(c, rest);
    case Unit(hex) =>
      SurrogatesDiffer(c);
      if HighUnit(c) {
        HighDecided(characters, tail);
      } else {
        UnitDecided(hex, rest);
      }
  }

  lemma UnitDecided(hex: seq<u8>, rest: seq<u8>)
    requires |hex| == 4 && UnicodeEscape(hex).Ok? && !IsHigh(UnicodeEscape(hex).value)
    ensures
      var text := [BACKSLASH, 0x75] + hex + rest;
      EscapedCharacter(text) ==
        if IsLow(UnicodeEscape(hex).value) then Err(InvalidEscape) else Ok((UnicodeEscape(hex).value, 6))
  {
    hide HexValue;
    assert [BACKSLASH, 0x75] + hex + rest == [BACKSLASH, 0x75] + (hex + rest);
    AfterFront([BACKSLASH, 0x75], hex + rest);
    HexFront(hex, rest);
  }

  lemma HighDecided(characters: seq<Character>, tail: seq<u8>)
    requires characters != [] && RfcText(characters) && HighUnit(characters[0])
    ensures
      var text := PrintCharacters(characters, tail);
      var n := Step(characters);
      var later := PrintCharacters(characters[n..], tail);
      && Begins(text, BACKSLASH) && |later| < |text| && After(text, |text| - |later|) == later
      && if n == 1 then EscapedCharacter(text) == Err(InvalidEscape)
         else EscapedCharacter(text).Ok? && EscapedCharacter(text).value.1 == |text| - |later|
  {
    hide HexValue, UnicodeEscape, EscapedCharacter;
    var high, rest := characters[0].hex, PrintCharacters(characters[1..], tail);
    assert RfcCharacter(characters[0]);
    var text := PrintCharacters(characters, tail);
    assert text == [BACKSLASH, 0x75] + high + rest;
    AfterFront([BACKSLASH, 0x75] + high, rest);
    NextDecided(characters[1..], tail);
    HighEscape(high, rest);
    if Step(characters) == 2 {
      var low, later := characters[1].hex, PrintCharacters(characters[2..], tail);
      assert RfcCharacter(characters[1]);
      assert characters[1..][1..] == characters[2..];
      assert rest == [BACKSLASH, 0x75] + low + later;
      assert text == ([BACKSLASH, 0x75] + high + ([BACKSLASH, 0x75] + low)) + later;
      AfterFront([BACKSLASH, 0x75] + high + ([BACKSLASH, 0x75] + low), later);
    }
  }

  /** A low surrogate is next exactly if the text goes on with the escape of one. */
  predicate LowNext(rest: seq<u8>)
  {
    |rest| >= 2 && rest[0] == BACKSLASH && rest[1] == 0x75 && UnicodeEscape(After(rest, 2)).Ok?
    && IsLow(UnicodeEscape(After(rest, 2)).value)
  }

  lemma NextDecided(characters: seq<Character>, tail: seq<u8>)
    requires RfcText(characters)
    ensures LowNext(PrintCharacters(characters, tail)) <==> characters != [] && LowUnit(characters[0])
  {
    hide UnicodeEscape;
    if characters != [] {
      var c, rest := characters[0], PrintCharacters(characters[1..], tail);
      assert RfcCharacter(c);
      if c.Unit? {
        assert PrintCharacters(characters, tail) == [BACKSLASH, 0x75] + (c.hex + rest);
        AfterFront([BACKSLASH, 0x75], c.hex + rest);
        HexFront(c.hex, rest);
      }
    }
  }

  lemma HighEscape(high: seq<u8>, rest: seq<u8>)
    requires |high| == 4 && UnicodeEscape(high).Ok? && IsHigh(UnicodeEscape(high).value)
    ensures
      var text := [BACKSLASH, 0x75] + high + rest;
      if LowNext(rest) then EscapedCharacter(text).Ok? && EscapedCharacter(text).value.1 == 12
      else EscapedCharacter(text) == Err(InvalidEscape)
  {
    hide UnicodeEscape;
    var text := [BACKSLASH, 0x75] + high + rest;
    assert text == [BACKSLASH, 0x75] + (high + rest);
    AfterFront([BACKSLASH, 0x75], high + rest);
    HexFront(high, rest);
    var unit := high + rest;
    assert |rest| >= 2 ==> unit[4] == rest[0] && unit[5] == rest[1] && After(unit, 6) == After(rest, 2);
  }

  /** A string of the RFC is accepted, to its closing quote, exactly if no surrogate in it stands alone. */
  lemma {:induction false} CharactersDecided(characters: seq<Character>, tail: seq<u8>)
    requires RfcText(characters)
    ensures CharactersLength(PrintCharacters(characters, tail)) ==
            if Paired(characters) then Ok(|PrintCharacters(characters, tail)| - |tail|) else Err(InvalidEscape)
    decreases |characters|
  {
    hide EscapedCharacter, After, PrintCharacter, Alone, RfcCharacter;
    if characters != [] {
      var later := characters[Step(characters)..];
      FirstDecided(characters, tail);
      PairedStep(characters);
      CharactersDecided(later, tail);
    }
  }

  lemma StringDecided(characters: seq<Character>, tail: seq<u8>)
    requires RfcText(characters)
    ensures StringLength(PrintString(characters, tail)) ==
            if Paired(characters) then Ok(|PrintString(characters, tail)| - |tail|) else Err(InvalidEscape)
  {
    hide PrintCharacters, CharactersLength, RfcText, Paired;
    CharactersDecided(characters, tail);
    AfterFront([QUOTE], PrintCharacters(characters, tail));
  }

  lemma KeyDecided(key: Key, tail: seq<u8>)
    requires RfcKey(key) && (tail == [] || !IsSpace(tail[0]))
    ensures KeyLength(PrintKey(key, tail)) ==
            if Paired(key.characters) then Ok(|PrintKey(key, tail)| - |tail|) else Err(InvalidEscape)
  {
    hide PrintString, StringLength, SpaceRun, Blank, After, RfcText, Paired;
    var colon := [COLON] + (key.behind + tail);
    var behind := key.before + colon;
    StringDecided(key.characters, behind);
    StringStarts(key.characters, behind);
    StringEnds(key.characters, behind);
    BlankFront(key.before, colon);
    BlankFront(key.behind, tail);
    AfterFront([COLON], key.behind + tail);
  }

  lemma ScalarDecided(s: Scalar, tail: seq<u8>)
    requires RfcScalar(s) && Stops(tail)
    ensures
      if s.Text? && !Paired(s.characters) then ScalarLength(PrintScalar(s, tail)).Err?
      else ScalarLength(PrintScalar(s, tail)) == Ok(|PrintScalar(s, tail)| - |tail|)
  {
    hide PrintString, StringLength, RfcText, Paired, ValidScalar, Stops, NumberLength;
    if s.Text? {
      StringDecided(s.characters, tail);
      StringStarts(s.characters, tail);
    } else {
      ScalarAccepted(s, tail);
    }
  }

  // ----- trees

  lemma RfcStarts(t: Tree, tail: seq<u8>)
    requires RfcTree(t)
    ensures StartsValue(PrintTree(t, tail))
    ensures t.Box? <==> Begins(PrintTree(t, tail), OBJECT_BEGIN) || Begins(PrintTree(t, tail), ARRAY_BEGIN)
  {
    hide RfcText;
    if t.Leaf? && !t.scalar.Text? {
      TreeStarts(t, tail);
    }
  }

  lemma RfcStops(later: Members, closing: u8, last: seq<u8>, tail: seq<u8>)
    requires RfcMembers(later, closing, false) && Blank(last) && (closing == OBJECT_END || closing == ARRAY_END)
    ensures Stops(PrintMembers(later, false, last + ([closing] + tail)))
  {
    hide PrintTree, PrintKey, RfcKey, RfcTree;
    if later.End? {
      assert last != [] ==> IsSpace(last[0]);
    } else {
      assert later.before != [] ==> IsSpace(later.before[0]);
    }
  }

  lemma FrontDecided(m: Members, closing: u8, first: bool, behind: seq<u8>)
    requires m.More? && RfcMembers(m, closing, first) && (closing == OBJECT_END || closing == ARRAY_END)
    ensures
      var text := PrintMembers(m, first, behind);
      var item := PrintTree(m.value, PrintMembers(m.later, false, behind));
      && |item| <= |text| && After(text, |text| - |item|) == item
      && if m.key.Some? && !Paired(m.key.value.characters) then MemberFront(text, closing, first).Err?
         else MemberFront(text, closing, first) == Ok(Some(|text| - |item|))
  {
    hide PrintTree, PrintKey, KeyLength, MemberFront, After, Blank, RfcTree, RfcKey, Paired;
    RfcStarts(m.value, PrintMembers(m.later, false, behind));
    if m.key.Some? {
      KeyDecided(m.key.value, PrintTree(m.value, PrintMembers(m.later, false, behind)));
    }
    MemberSeen(m, closing, first, behind);
  }

  /** A tree of the RFC is accepted, to its last byte and no further, exactly if it is not too deep and no surrogate
      in it stands alone. */
  lemma {:induction false} TreeDecided(t: Tree, tail: seq<u8>, depth: nat)
    requires RfcTree(t) && Stops(tail)
    ensures
      if depth + Height(t) <= MAX_DEPTH && PairedTree(t) then
          ValueLength(PrintTree(t, tail), depth) == Ok(|PrintTree(t, tail)| - |tail|)
      else ValueLength(PrintTree(t, tail), depth).Err?
    decreases t
  {
    hide ScalarLength, MembersLength, PrintScalar, After, Stops, RfcScalar, Paired;
    RfcStarts(t, tail);
    match t
    case Leaf(scalar) => ScalarDecided(scalar, tail);
    case Box(closing, members, last) =>
      var inside := PrintMembers(members, true, last + ([closing] + tail));
      AfterFront([Opening(closing)], inside);
      if depth <= MAX_DEPTH {
        MembersDecided(members, closing, true, last, tail, depth + 1);
      }
  }

  lemma {:induction false} MembersDecided(m: Members, closing: u8, first: bool, last: seq<u8>, tail: seq<u8>,
      depth: nat)
    requires RfcMembers(m, closing, first) && Blank(last) && (closing == OBJECT_END || closing == ARRAY_END)
    requires depth <= MAX_DEPTH + 1
    ensures
      var text := PrintMembers(m, first, last + ([closing] + tail));
      if depth + MembersHeight(m) <= MAX_DEPTH + 1 && PairedMembers(m) then
          MembersLength(text, closing, first, depth) == Ok(|text| - |tail|)
      else MembersLength(text, closing, first, depth).Err?
    decreases m
  {
    hide ValueLength, MemberFront, After, Blank, Stops, RfcKey, Paired, PrintTree, PrintKey;
    var behind := last + ([closing] + tail);
    match m
    case End =>
      ClosingFront(closing, first, last, tail);
    case More(before, gap, key, value, later) =>
      var rest := PrintMembers(later, false, behind);
      RfcStops(later, closing, last, tail);
      TreeDecided(value, rest, depth);
      TreeEnds(value, rest);
      MembersDecided(later, closing, false, last, tail, depth);
      FrontDecided(m, closing, first, behind);
  }

  // ----- pairs taken apart

  function Units(characters: seq<Character>): (units: seq<Character>)
  {
    if characters == [] then []
    else
      (if characters[0].Pair? then [Unit(characters[0].high), Unit(characters[0].low)] else [characters[0]])
      + Units(characters[1..])
  }

  lemma {:induction false} UnitsPrint(characters: seq<Character>, tail: seq<u8>)
    requires ValidText(characters)
    ensures RfcText(Units(characters)) && Paired(Units(characters))
    ensures PrintCharacters(Units(characters), tail) == PrintCharacters(characters, tail)
  {
    hide UnicodeEscape;
    if characters != [] {
      var c, later, units := characters[0], characters[1..], Units(characters);
      assert ValidCharacter(c) && ValidText(later);
      UnitsPrint(later, tail);
      if c.Pair? {
        var high, low := Unit(c.high), Unit(c.low);
        assert units[1..] == [low] + Units(later) && units[1..][1..] == Units(later) && units[2..] == Units(later);
        PairPrints(c, PrintCharacters(Units(later), tail));
        assert RfcText([high, low] + Units(later));
        assert Step(units) == 2;
      } else {
        assert units[1..] == Units(later);
        assert RfcText([c] + Units(later));
        assert Step(units) == 1;
      }
      PairedStep(units);
    }
  }

  lemma PairPrints(c: Character, rest: seq<u8>)
    requires c.Pair?
    ensures PrintCharacter(Unit(c.high)) + (PrintCharacter(Unit(c.low)) + rest) == PrintCharacter(c) + rest
  {
    Reassociate([BACKSLASH, 0x75], c.high, PrintCharacter(Unit(c.low)), rest);
  }

  lemma Reassociate(escape: seq<u8>, high: seq<u8>, low: seq<u8>, rest: seq<u8>)
    ensures (escape + high) + (low + rest) == (escape + (high + low)) + rest
  {
    assert (escape + high) + low == escape + (high + low);
  }

  function UnitsKey(key: Option<Key>): Option<Key>
  {
    if key.None? then None else Some(key.value.(characters := Units(key.value.characters)))
  }

  function UnitsTree(t: Tree): Tree
  {
    match t
    case Leaf(scalar) => Leaf(if scalar.Text? then Text(Units(scalar.characters)) else scalar)
    case Box(closing, members, last) => Box(closing, UnitsMembers(members), last)
  }

  function UnitsMembers(m: Members): Members
  {
    match m
    case End => End
    case More(before, gap, key, value, later) => More(before, gap, UnitsKey(key), UnitsTree(value), UnitsMembers(later))
  }

  /** Every tree that the validator sees is a tree of the RFC with all surrogates in pairs, and the same text. */
  lemma {:induction false} UnitsTreePrints(t: Tree, tail: seq<u8>)
    requires ValidTree(t)
    ensures RfcTree(UnitsTree(t)) && PairedTree(UnitsTree(t)) && Height(UnitsTree(t)) == Height(t)
    ensures PrintTree(UnitsTree(t), tail) == PrintTree(t, tail)
    decreases t
  {
    hide RfcText, Paired, Units, PrintCharacters, ValidText, PrintNumber, ValidNumber;
    match t
    case Leaf(scalar) =>
      if scalar.Text? {
        UnitsPrint(scalar.characters, tail);
      }
    case Box(closing, members, last) => UnitsMembersPrint(members, closing, true, last + ([closing] + tail));
  }

  lemma {:induction false} UnitsMembersPrint(m: Members, closing: u8, first: bool, tail: seq<u8>)
    requires ValidMembers(m, closing, first)
    ensures RfcMembers(UnitsMembers(m), closing, first) && PairedMembers(UnitsMembers(m))
    ensures MembersHeight(UnitsMembers(m)) == MembersHeight(m)
    ensures PrintMembers(UnitsMembers(m), first, tail) == PrintMembers(m, first, tail)
    decreases m
  {
    hide RfcText, Paired, Units, PrintCharacters, ValidText, Blank, PrintTree, ValidTree, RfcTree, PairedTree;
    match m
    case End =>
    case More(before, gap, key, value, later) =>
      UnitsMembersPrint(later, closing, false, tail);
      var rest := PrintMembers(later, false, tail);
      UnitsTreePrints(value, rest);
      if key.Some? {
        var item := PrintTree(value, rest);
        UnitsPrint(key.value.characters, key.value.before + ([COLON] + (key.value.behind + item)));
      }
  }

  // ----- documents

  predicate RfcDocument(text: seq<u8>, front: seq<u8>, t: Tree, back: seq<u8>)
  {
    Blank(front) && Blank(back) && RfcTree(t) && text == front + PrintTree(t, back)
  }

  /** A document of the RFC is accepted if and only if it is at most 64 levels deep and no surrogate in it stands
      alone. */
  lemma DocumentDecided(text: seq<u8>, front: seq<u8>, t: Tree, back: seq<u8>)
    requires RfcDocument(text, front, t, back)
    ensures DocumentBounds(text).Ok? <==> Height(t) <= MAX_DEPTH && PairedTree(t)
  {
    hide RfcTree, PairedTree, Height, PrintTree, ValueLength, SpaceRun, After, Blank;
    var body := PrintTree(t, back);
    RfcStarts(t, back);
    BlankFront(front, body);
    BlankStops(back);
    TreeDecided(t, back, 0);
    TreeEnds(t, back);
    if ValueLength(body, 0).Ok? {
      AfterTwice(text, |front|, |body| - |back|);
    }
  }

  /** Nothing that is no document of the RFC is accepted. */
  lemma AcceptedIsRfc(text: seq<u8>) returns (front: seq<u8>, t: Tree, back: seq<u8>)
    requires DocumentBounds(text).Ok?
    ensures RfcDocument(text, front, t, back) && Height(t) <= MAX_DEPTH && PairedTree(t)
  {
    hide RfcTree, PairedTree, Height, PrintTree, DocumentBounds, ValidTree;
    front, t, back := DocumentOf(text);
    UnitsTreePrints(t, back);
    t := UnitsTree(t);
  }

  /** The string "\ud800", quotes included: a document of the RFC that is rejected. */
  lemma LoneSurrogate()
    ensures
      var text: seq<u8> := [0x22, 0x5c, 0x75, 0x64, 0x38, 0x30, 0x30, 0x22];
      && RfcDocument(text, [], Leaf(Text([Unit([0x64, 0x38, 0x30, 0x30])])), [])
      && DocumentBounds(text) == Err(InvalidEscape)
  {
    hide UnicodeEscape, PrintCharacters, StringLength, Alone;
    var characters := [Unit([0x64, 0x38, 0x30, 0x30])];
    var text: seq<u8> := [0x22, 0x5c, 0x75, 0x64, 0x38, 0x30, 0x30, 0x22];
    SurrogateText();
    StringDecided(characters, []);
    assert Alone(characters, 0);
    assert [] + text == text;
    QuoteFirst(text);
  }

  lemma SurrogateText()
    ensures
      var characters := [Unit([0x64, 0x38, 0x30, 0x30])];
      && RfcText(characters) && Alone(characters, 0)
      && PrintString(characters, []) == [0x22, 0x5c, 0x75, 0x64, 0x38, 0x30, 0x30, 0x22]
  {
    var characters := [Unit([0x64, 0x38, 0x30, 0x30])];
    SurrogateUnit();
    assert characters[1..] == [];
    assert PrintCharacters(characters, []) == [BACKSLASH, 0x75] + [0x64, 0x38, 0x30, 0x30] + ([QUOTE] + []);
  }

  lemma SurrogateUnit()
    ensures UnicodeEscape([0x64, 0x38, 0x30, 0x30]) == Ok(0xd800)
  {
  }

  lemma QuoteFirst(text: seq<u8>)
    requires Begins(text, QUOTE) && StringLength(text).Err?
    ensures DocumentBounds(text) == Err(StringLength(text).error)
  {
    hide StringLength;
    assert text[0..] == text;
  }
}
