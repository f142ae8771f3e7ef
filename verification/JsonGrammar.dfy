/** The validator (src/json.rs lines 99-112 and 224-313) as a function of the
    text. What it says about a value depends on the value's own bytes alone, and
    what it accepts at some depth it accepts at every smaller one. */
module JsonGrammar {
  import opened Numbers
  import opened Results
  import opened AsciiText
  import opened JsonText

  const MAX_DEPTH: nat := 64

  /** The closing bracket tells objects from arrays. */
  const OBJECT_END: u8 := 0x7d
  const ARRAY_END: u8 := 0x5d
  const OBJECT_BEGIN: u8 := 0x7b
  const ARRAY_BEGIN: u8 := 0x5b

  // ----- the validator

  /** A member's key: a string, a colon, and the space around it. */
  function KeyLength(text: seq<u8>): (r: Result<nat, JsonError>)
    ensures r.Ok? ==> 0 < r.value <= |text|
  {
    if !Begins(text, QUOTE) then Err(InvalidSyntax)
    else
      var key :- StringLength(text);
      var before := SpaceRun(After(text, key));
      var colon := After(After(text, key), before);
      if !Begins(colon, COLON) then Err(InvalidSyntax)
      else Ok(key + before + 1 + SpaceRun(After(colon, 1)))
  }

  /** What separates a member from the one before it. */
  function GapLength(text: seq<u8>, first: bool): (r: Result<nat, JsonError>)
    ensures r.Ok? ==> r.value <= |text|
  {
    if first then Ok(0) else if Begins(text, COMMA) then Ok(1 + SpaceRun(After(text, 1))) else Err(InvalidSyntax)
  }

  function ScalarLength(text: seq<u8>): (r: Result<nat, JsonError>)
    ensures r.Ok? ==> 0 < r.value <= |text|
  {
    if Begins(text, QUOTE) then StringLength(text)
    else if Begins(text, 0x74) then LiteralLength(text, TRUE)
    else if Begins(text, 0x66) then LiteralLength(text, FALSE)
    else if Begins(text, 0x6e) then LiteralLength(text, NULL)
    else if text != [] && (text[0] == MINUS || IsDigit(text[0])) then NumberLength(text)
    else Err(InvalidSyntax)
  }

  /** How much of the text is a value; values nest at most 64 deep. */
  function ValueLength(text: seq<u8>, depth: nat): (r: Result<nat, JsonError>)
    ensures r.Ok? ==> 0 < r.value <= |text|
    decreases |text|, 0
  {
    if depth > MAX_DEPTH then Err(NestingTooDeep)
    else if Begins(text, OBJECT_BEGIN) then var n :- MembersLength(After(text, 1), OBJECT_END, true, depth + 1);
        Ok(1 + n)
    else if Begins(text, ARRAY_BEGIN) then var n :- MembersLength(After(text, 1), ARRAY_END, true, depth + 1); Ok(1 + n)
    else ScalarLength(text)
  }

  /** The front of a member, up to its value; `None` if the container ends instead. */
  function FrontLength(text: seq<u8>, closing: u8, first: bool): (r: Result<Option<nat>, JsonError>)
    ensures r.Ok? && r.value.Some? ==> r.value.value <= |text|
  {
    if Begins(text, closing) then Ok(None)
    else
      var gap :- GapLength(text, first);
      var key :- if closing == OBJECT_END then KeyLength(After(text, gap)) else Ok(0);
      Ok(Some(gap + key))
  }

  function MemberFront(text: seq<u8>, closing: u8, first: bool): (r: Result<Option<nat>, JsonError>)
    ensures r.Ok? && r.value.Some? ==> r.value.value <= |text|
  {
    var space := SpaceRun(text);
    var front :- FrontLength(After(text, space), closing, first);
    Ok(if front.None? then None else Some(space + front.value))
  }

  /** The rest of a container, its closing bracket included. */
  function MembersLength(text: seq<u8>, closing: u8, first: bool, depth: nat): (r: Result<nat, JsonError>)
    ensures r.Ok? ==> 0 < r.value <= |text|
    decreases |text|, 1
  {
    var front :- MemberFront(text, closing, first);
    match front
    case None => Ok(SpaceRun(text) + 1)
    case Some(at) =>
      var value :- ValueLength(After(text, at), depth);
      var later :- MembersLength(After(After(text, at), value), closing, false, depth);
      Ok(at + value + later)
  }

  /** A whole text: a value, with space around it. */
  function DocumentBounds(text: seq<u8>): (r: Result<(nat, nat), JsonError>)
    ensures r.Ok? ==> r.value.0 < r.value.1 <= |text|
  {
    var start := SpaceRun(text);
    var n :- ValueLength(After(text, start), 0);
    if SpaceRun(After(text, start + n)) != |text| - start - n then Err(InvalidSyntax) else Ok((start, start + n))
  }

  // ----- locality

  lemma KeyTruncated(text: seq<u8>, m: nat)
    requires KeyLength(text).Ok? && KeyLength(text).value <= m <= |text|
    ensures KeyLength(Upto(text, m)) == KeyLength(text)
  {
    hide SpaceRun, StringLength, After, Upto, Begins;
    var key := StringLength(text).value;
    var tail := After(text, key);
    var before := SpaceRun(tail);
    var colon := After(tail, before);
    BeginsTruncated(text, m, QUOTE);
    StringTruncated(text, m);
    CutAfter(text, m, key);
    SpaceRunTruncated(tail, m - key);
    CutAfter(tail, m - key, before);
    BeginsTruncated(colon, m - key - before, COLON);
    CutAfter(colon, m - key - before, 1);
    SpaceRunTruncated(After(colon, 1), m - key - before - 1);
  }

  lemma GapTruncated(text: seq<u8>, first: bool, m: nat)
    requires GapLength(text, first).Ok? && GapLength(text, first).value <= m <= |text|
    ensures GapLength(Upto(text, m), first) == GapLength(text, first)
  {
    hide SpaceRun, After, Upto, Begins;
    if !first {
      BeginsTruncated(text, m, COMMA);
      CutAfter(text, m, 1);
      SpaceRunTruncated(After(text, 1), m - 1);
    }
  }

  lemma ScalarTruncated(text: seq<u8>, m: nat)
    requires ScalarLength(text).Ok? && ScalarLength(text).value <= m <= |text|
    ensures ScalarLength(Upto(text, m)) == ScalarLength(text)
  {
    hide NumberLength, StringLength, After;
    if Begins(text, QUOTE) {
      StringTruncated(text, m);
    } else if text[0] == MINUS || IsDigit(text[0]) {
      NumberTruncated(text, m);
    }
  }

  lemma FrontLengthTruncated(text: seq<u8>, closing: u8, first: bool, m: nat)
    requires FrontLength(text, closing, first).Ok? && 0 < m <= |text|
    requires FrontLength(text, closing, first).value.Some? ==> FrontLength(text, closing, first).value.value < m
    ensures FrontLength(Upto(text, m), closing, first) == FrontLength(text, closing, first)
  {
    hide KeyLength, GapLength, After, Upto, Begins;
    BeginsTruncated(text, m, closing);
    if !Begins(text, closing) {
      var gap := GapLength(text, first).value;
      GapTruncated(text, first, m);
      CutAfter(text, m, gap);
      if closing == OBJECT_END {
        KeyTruncated(After(text, gap), m - gap);
      }
    }
  }

  lemma FrontTruncated(text: seq<u8>, closing: u8, first: bool, m: nat)
    requires MemberFront(text, closing, first).Ok? && SpaceRun(text) < m <= |text|
    requires MemberFront(text, closing, first).value.Some? ==> MemberFront(text, closing, first).value.value < m
    ensures MemberFront(Upto(text, m), closing, first) == MemberFront(text, closing, first)
    ensures SpaceRun(Upto(text, m)) == SpaceRun(text)
  {
    hide SpaceRun, FrontLength, After, Upto;
    var space := SpaceRun(text);
    SpaceRunTruncated(text, m);
    CutAfter(text, m, space);
    FrontLengthTruncated(After(text, space), closing, first, m - space);
  }

  lemma SpaceBeforeFront(text: seq<u8>, closing: u8, first: bool)
    requires MemberFront(text, closing, first).Ok?
    ensures MemberFront(text, closing, first).value.Some?
        ==> SpaceRun(text) <= MemberFront(text, closing, first).value.value
  {
  }

  /** Whether a value is accepted, and where it ends, is decided by its own bytes. */
  lemma {:induction false} ValueIsLocal(text: seq<u8>, depth: nat, m: nat)
    requires ValueLength(text, depth).Ok? && ValueLength(text, depth).value <= m <= |text|
    ensures ValueLength(Upto(text, m), depth) == ValueLength(text, depth)
    decreases |text|, 0
  {
    hide ScalarLength, MembersLength, After, Upto, Begins;
    BeginsTruncated(text, m, OBJECT_BEGIN);
    BeginsTruncated(text, m, ARRAY_BEGIN);
    CutAfter(text, m, 1);
    if Begins(text, OBJECT_BEGIN) {
      MembersAreLocal(After(text, 1), OBJECT_END, true, depth + 1, m - 1);
    } else if Begins(text, ARRAY_BEGIN) {
      MembersAreLocal(After(text, 1), ARRAY_END, true, depth + 1, m - 1);
    } else {
      ScalarTruncated(text, m);
    }
  }

  lemma {:induction false} MembersAreLocal(text: seq<u8>, closing: u8, first: bool, depth: nat, m: nat)
    requires MembersLength(text, closing, first, depth).Ok?
        && MembersLength(text, closing, first, depth).value <= m <= |text|
    ensures MembersLength(Upto(text, m), closing, first, depth) == MembersLength(text, closing, first, depth)
    decreases |text|, 1
  {
    hide MemberFront, ValueLength, SpaceRun, After, Upto;
    SpaceBeforeFront(text, closing, first);
    FrontTruncated(text, closing, first, m);
    match MemberFront(text, closing, first).value
    case None =>
    case Some(at) =>
      var tail := After(text, at);
      var value := ValueLength(tail, depth).value;
      CutAfter(text, m, at);
      CutAfter(tail, m - at, value);
      ValueIsLocal(tail, depth, m - at);
      MembersAreLocal(After(tail, value), closing, false, depth, m - at - value);
  }

  // ----- depth

  /** What is accepted deep inside is accepted further out. */
  lemma {:induction false} ValueIsShallower(text: seq<u8>, depth: nat, outer: nat)
    requires ValueLength(text, depth).Ok? && outer <= depth
    ensures ValueLength(text, outer) == ValueLength(text, depth)
    decreases |text|, 0
  {
    hide ScalarLength, MembersLength, After, Begins;
    if Begins(text, OBJECT_BEGIN) {
      MembersAreShallower(After(text, 1), OBJECT_END, true, depth + 1, outer + 1);
    } else if Begins(text, ARRAY_BEGIN) {
      MembersAreShallower(After(text, 1), ARRAY_END, true, depth + 1, outer + 1);
    }
  }

  lemma {:induction false} MembersAreShallower(text: seq<u8>, closing: u8, first: bool, depth: nat, outer: nat)
    requires MembersLength(text, closing, first, depth).Ok? && outer <= depth
    ensures MembersLength(text, closing, first, outer) == MembersLength(text, closing, first, depth)
    decreases |text|, 1
  {
    hide MemberFront, ValueLength, After;
    match MemberFront(text, closing, first).value
    case None =>
    case Some(at) =>
      var value := ValueLength(After(text, at), depth).value;
      ValueIsShallower(After(text, at), depth, outer);
      MembersAreShallower(After(After(text, at), value), closing, false, depth, outer);
  }
}
