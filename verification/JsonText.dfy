/** The tokens of JSON (src/json.rs lines 315-439): whitespace, literals,
    numbers, strings and their escapes, each as the length of what a scanner
    takes from the front of a text. */
module JsonText {
  import opened Numbers
  import opened Results
  import opened AsciiText
  import opened Utf8Text

  datatype JsonError =
    | InvalidUtf8
    | InvalidSyntax
    | NestingTooDeep
    | InvalidEscape
    | InvalidNumber
    | WrongType
    | MissingField(name: seq<u8>)
    | DuplicateField(name: seq<u8>)
    | BufferTooSmall

  const QUOTE: u8 := 0x22
  const COMMA: u8 := 0x2c
  const MINUS: u8 := 0x2d
  const POINT: u8 := 0x2e
  const ZERO: u8 := 0x30
  const COLON: u8 := 0x3a
  const BACKSLASH: u8 := 0x5c

  /** "true", "false" and "null" */
  const TRUE: seq<u8> := [0x74, 0x72, 0x75, 0x65]
  const FALSE: seq<u8> := [0x66, 0x61, 0x6c, 0x73, 0x65]
  const NULL: seq<u8> := [0x6e, 0x75, 0x6c, 0x6c]

  predicate Begins(text: seq<u8>, byte: u8)
  {
    text != [] && text[0] == byte
  }

  // ----- slices

  /** The text behind its first n bytes, and those bytes. */
  function After(text: seq<u8>, n: nat): (rest: seq<u8>)
    requires n <= |text|
    ensures |rest| == |text| - n
  {
    text[n..]
  }

  function Upto(text: seq<u8>, n: nat): (front: seq<u8>)
    requires n <= |text|
    ensures |front| == n
  {
    text[..n]
  }

  lemma CutAfter(text: seq<u8>, m: nat, n: nat)
    requires n <= m <= |text|
    ensures After(Upto(text, m), n) == Upto(After(text, n), m - n)
  {
  }

  // ----- whitespace and literals

  predicate IsSpace(byte: u8)
  {
    byte == 0x20 || byte == 0x0a || byte == 0x0d || byte == 0x09
  }

  predicate Blank(text: seq<u8>)
  {
    forall k :: 0 <= k < |text| ==> IsSpace(text[k])
  }

  function SpaceRun(text: seq<u8>): (n: nat)
    ensures n <= |text|
  {
    if text == [] || !IsSpace(text[0]) then 0 else 1 + SpaceRun(text[1..])
  }

  lemma {:induction false} SpaceRunIs(text: seq<u8>)
    ensures forall k :: 0 <= k < SpaceRun(text) ==> IsSpace(text[k])
    ensures SpaceRun(text) < |text| ==> !IsSpace(text[SpaceRun(text)])
  {
    if text != [] && IsSpace(text[0]) {
      SpaceRunIs(text[1..]);
      assert forall k :: 1 <= k < SpaceRun(text) ==> text[k] == text[1..][k - 1];
    }
  }

  lemma {:induction false} SpaceRunUnique(text: seq<u8>, n: nat)
    requires n <= |text| && (forall k :: 0 <= k < n ==> IsSpace(text[k])) && (n < |text| ==> !IsSpace(text[n]))
    ensures SpaceRun(text) == n
  {
    if n > 0 {
      assert forall k :: 0 <= k < n - 1 ==> text[1..][k] == text[k + 1];
      SpaceRunUnique(text[1..], n - 1);
    }
  }

  function LiteralLength(text: seq<u8>, literal: seq<u8>): Result<nat, JsonError>
  {
    if literal <= text then Ok(|literal|) else Err(InvalidSyntax)
  }

  // ----- numbers

  predicate AllDigits(text: seq<u8>)
  {
    text != [] && forall k :: 0 <= k < |text| ==> IsDigit(text[k])
  }

  function DigitRun(text: seq<u8>): (n: nat)
    ensures n <= |text|
  {
    if text == [] || !IsDigit(text[0]) then 0 else 1 + DigitRun(text[1..])
  }

  lemma {:induction false} DigitRunIs(text: seq<u8>)
    ensures forall k :: 0 <= k < DigitRun(text) ==> IsDigit(text[k])
    ensures DigitRun(text) < |text| ==> !IsDigit(text[DigitRun(text)])
  {
    if text != [] && IsDigit(text[0]) {
      DigitRunIs(text[1..]);
      assert forall k :: 1 <= k < DigitRun(text) ==> text[k] == text[1..][k - 1];
    }
  }

  lemma {:induction false} DigitRunUnique(text: seq<u8>, n: nat)
    requires n <= |text| && (forall k :: 0 <= k < n ==> IsDigit(text[k])) && (n < |text| ==> !IsDigit(text[n]))
    ensures DigitRun(text) == n
  {
    if n > 0 {
      assert forall k :: 0 <= k < n - 1 ==> text[1..][k] == text[k + 1];
      DigitRunUnique(text[1..], n - 1);
    }
  }

  /** At least one digit. */
  function DigitsLength(text: seq<u8>): (r: Result<nat, JsonError>)
    ensures r.Ok? ==> 0 < r.value <= |text|
  {
    if DigitRun(text) == 0 then Err(InvalidNumber) else Ok(DigitRun(text))
  }

  /** No superfluous zero in front. */
  function IntegerLength(text: seq<u8>): (r: Result<nat, JsonError>)
    ensures r.Ok? ==> 0 < r.value <= |text|
  {
    if Begins(text, ZERO) then Ok(1) else DigitsLength(text)
  }

  function FractionLength(text: seq<u8>): (r: Result<nat, JsonError>)
    ensures r.Ok? ==> r.value <= |text|
  {
    if Begins(text, POINT) then var n :- DigitsLength(After(text, 1)); Ok(1 + n) else Ok(0)
  }

  function ExponentLength(text: seq<u8>): (r: Result<nat, JsonError>)
    ensures r.Ok? ==> r.value <= |text|
  {
    if !Begins(text, 0x65) && !Begins(text, 0x45) then Ok(0)
    else
      var sign := if Begins(After(text, 1), 0x2b) || Begins(After(text, 1), MINUS) then 1 else 0;
      var n :- DigitsLength(After(text, 1 + sign));
      Ok(1 + sign + n)
  }

  function NumberLength(text: seq<u8>): (r: Result<nat, JsonError>)
    ensures r.Ok? ==> 0 < r.value <= |text|
  {
    var minus := if Begins(text, MINUS) then 1 else 0;
    var magnitude := After(text, minus);
    var whole :- IntegerLength(magnitude);
    var behind := After(magnitude, whole);
    var fraction :- FractionLength(behind);
    var exponent :- ExponentLength(After(behind, fraction));
    Ok(minus + whole + fraction + exponent)
  }

  // ----- escapes

  /** Four hexadecimal digits. */
  function UnicodeEscape(text: seq<u8>): (r: Result<nat, JsonError>)
    ensures r.Ok? ==> |text| >= 4 && r.value < 0x10000
    ensures r.Err? ==> r.error == InvalidEscape
  {
    if |text| < 4 || HexValue(text[0]).None? || HexValue(text[1]).None? || HexValue(text[2]).None?
        || HexValue(text[3]).None? then Err(InvalidEscape)
    else Ok(((HexValue(text[0]).value * 16 + HexValue(text[1]).value) * 16 + HexValue(text[2]).value) * 16
        + HexValue(text[3]).value)
  }

  predicate IsHigh(unit: nat)
  {
    0xd800 <= unit <= 0xdbff
  }

  predicate IsLow(unit: nat)
  {
    0xdc00 <= unit <= 0xdfff
  }

  /** A code unit, or a pair of surrogates; how much of the text behind "\\u" they take. */
  function UnicodeCharacter(text: seq<u8>): (r: Result<(nat, nat), JsonError>)
    ensures r.Ok? ==> (r.value.1 == 4 || r.value.1 == 10) && r.value.1 <= |text| && IsScalar(r.value.0)
    ensures r.Ok? ==> (r.value.1 == 10 <==> r.value.0 > 0xffff)
    ensures r.Err? ==> r.error == InvalidEscape
  {
    var first :- UnicodeEscape(text);
    if IsHigh(first) then
      if |text| < 6 || text[4] != BACKSLASH || text[5] != 0x75 then Err(InvalidEscape)
      else
        var second :- UnicodeEscape(After(text, 6));
        if !IsLow(second) then Err(InvalidEscape)
        else Ok((0x10000 + (first - 0xd800) * 1024 + (second - 0xdc00), 10))
    else if IsLow(first) then Err(InvalidEscape)
    else Ok((first, 4))
  }

  /** The character that an escape stands for, and the length of the escape. */
  function EscapedCharacter(text: seq<u8>): (r: Result<(nat, nat), JsonError>)
    requires Begins(text, BACKSLASH)
    ensures r.Ok? ==> 2 <= r.value.1 <= |text| && IsScalar(r.value.0)
    ensures r.Err? ==> r.error == InvalidEscape
  {
    if |text| < 2 then Err(InvalidEscape)
    else
      var letter := text[1];
      if letter == QUOTE || letter == BACKSLASH || letter == 0x2f then Ok((letter, 2))
      else if letter == 0x62 then Ok((0x08, 2))
      else if letter == 0x66 then Ok((0x0c, 2))
      else if letter == 0x6e then Ok((0x0a, 2))
      else if letter == 0x72 then Ok((0x0d, 2))
      else if letter == 0x74 then Ok((0x09, 2))
      else if letter == 0x75 then var (scalar, n) :- UnicodeCharacter(After(text, 2)); Ok((scalar, 2 + n))
      else Err(InvalidEscape)
  }

  // ----- strings

  /** The rest of a string, its closing quote included. */
  function CharactersLength(text: seq<u8>): (r: Result<nat, JsonError>)
    ensures r.Ok? ==> 0 < r.value <= |text| && text[r.value - 1] == QUOTE
    decreases |text|
  {
    if text == [] then Err(InvalidSyntax)
    else if text[0] == QUOTE then Ok(1)
    else if text[0] == BACKSLASH then
      var (_, used) :- EscapedCharacter(text);
      var later :- CharactersLength(After(text, used));
      Ok(used + later)
    else if text[0] < 0x20 then Err(InvalidSyntax)
    else
      var later :- CharactersLength(After(text, 1));
      Ok(1 + later)
  }

  function StringLength(text: seq<u8>): (r: Result<nat, JsonError>)
    requires text != []
    ensures r.Ok? ==> 1 < r.value <= |text|
  {
    var n :- CharactersLength(After(text, 1));
    Ok(1 + n)
  }

  // ----- truncation: a token is decided by its own bytes

  lemma SpaceRunTruncated(text: seq<u8>, m: nat)
    requires SpaceRun(text) <= m <= |text|
    ensures SpaceRun(Upto(text, m)) == SpaceRun(text)
  {
    var cut := Upto(text, m);
    SpaceRunIs(text);
    assert forall k :: 0 <= k < m ==> cut[k] == text[k];
    SpaceRunUnique(cut, SpaceRun(text));
  }

  lemma DigitRunTruncated(text: seq<u8>, m: nat)
    requires DigitRun(text) <= m <= |text|
    ensures DigitRun(Upto(text, m)) == DigitRun(text)
  {
    var cut := Upto(text, m);
    DigitRunIs(text);
    assert forall k :: 0 <= k < m ==> cut[k] == text[k];
    DigitRunUnique(cut, DigitRun(text));
  }

  lemma BeginsTruncated(text: seq<u8>, m: nat, byte: u8)
    requires 0 < m <= |text|
    ensures Begins(Upto(text, m), byte) == Begins(text, byte)
  {
  }

  lemma IntegerTruncated(text: seq<u8>, m: nat)
    requires IntegerLength(text).Ok? && IntegerLength(text).value <= m <= |text|
    ensures IntegerLength(Upto(text, m)) == IntegerLength(text)
  {
    hide DigitRun, Upto, Begins;
    BeginsTruncated(text, m, ZERO);
    if !Begins(text, ZERO) {
      DigitRunTruncated(text, m);
    }
  }

  lemma FractionTruncated(text: seq<u8>, m: nat)
    requires FractionLength(text).Ok? && FractionLength(text).value <= m <= |text|
    ensures FractionLength(Upto(text, m)) == FractionLength(text)
  {
    hide DigitRun, After;
    if Begins(text, POINT) {
      CutAfter(text, m, 1);
      DigitRunTruncated(After(text, 1), m - 1);
    }
  }

  lemma ExponentTruncated(text: seq<u8>, m: nat)
    requires ExponentLength(text).Ok? && ExponentLength(text).value <= m <= |text|
    ensures ExponentLength(Upto(text, m)) == ExponentLength(text)
  {
    hide DigitRun, After, Upto, Begins;
    if m > 0 {
      BeginsTruncated(text, m, 0x65);
      BeginsTruncated(text, m, 0x45);
    } else {
      EmptyBegins(Upto(text, 0), 0x65);
      EmptyBegins(Upto(text, 0), 0x45);
    }
    if Begins(text, 0x65) || Begins(text, 0x45) {
      var behind := After(text, 1);
      var sign := if Begins(behind, 0x2b) || Begins(behind, MINUS) then 1 else 0;
      CutAfter(text, m, 1);
      CutAfter(text, m, 1 + sign);
      BeginsTruncated(behind, m - 1, 0x2b);
      BeginsTruncated(behind, m - 1, MINUS);
      DigitRunTruncated(After(text, 1 + sign), m - 1 - sign);
    }
  }

  lemma EmptyBegins(text: seq<u8>, byte: u8)
    requires |text| == 0
    ensures !Begins(text, byte)
  {
  }

  lemma NumberTruncated(text: seq<u8>, m: nat)
    requires NumberLength(text).Ok? && NumberLength(text).value <= m <= |text|
    ensures NumberLength(Upto(text, m)) == NumberLength(text)
  {
    hide IntegerLength, FractionLength, ExponentLength, After, Upto, Begins;
    var minus := if Begins(text, MINUS) then 1 else 0;
    var magnitude := After(text, minus);
    var whole := IntegerLength(magnitude).value;
    var behind := After(magnitude, whole);
    var fraction := FractionLength(behind).value;
    CutAfter(text, m, minus);
    CutAfter(magnitude, m - minus, whole);
    CutAfter(behind, m - minus - whole, fraction);
    IntegerTruncated(magnitude, m - minus);
    FractionTruncated(behind, m - minus - whole);
    ExponentTruncated(After(behind, fraction), m - minus - whole - fraction);
    BeginsTruncated(text, m, MINUS);
  }

  lemma UnicodeTruncated(text: seq<u8>, m: nat)
    requires UnicodeCharacter(text).Ok? && UnicodeCharacter(text).value.1 <= m <= |text|
    ensures UnicodeCharacter(Upto(text, m)) == UnicodeCharacter(text)
  {
    hide HexValue;
    if m >= 6 {
      CutAfter(text, m, 6);
    }
  }

  lemma EscapeTruncated(text: seq<u8>, m: nat)
    requires Begins(text, BACKSLASH) && EscapedCharacter(text).Ok? && EscapedCharacter(text).value.1 <= m <= |text|
    ensures EscapedCharacter(Upto(text, m)) == EscapedCharacter(text)
  {
    hide UnicodeCharacter, After;
    if text[1] == 0x75 {
      CutAfter(text, m, 2);
      UnicodeTruncated(After(text, 2), m - 2);
    }
  }

  lemma {:induction false} CharactersTruncated(text: seq<u8>, m: nat)
    requires CharactersLength(text).Ok? && CharactersLength(text).value <= m <= |text|
    ensures CharactersLength(Upto(text, m)) == CharactersLength(text)
    decreases |text|
  {
    hide EscapedCharacter, After, Upto;
    FirstByte(text, m);
    if text[0] == QUOTE {
    } else if text[0] == BACKSLASH {
      var used := EscapedCharacter(text).value.1;
      EscapeTruncated(text, m);
      CutAfter(text, m, used);
      CharactersTruncated(After(text, used), m - used);
    } else {
      CutAfter(text, m, 1);
      CharactersTruncated(After(text, 1), m - 1);
    }
  }

  lemma FirstByte(text: seq<u8>, m: nat)
    requires 0 < m <= |text|
    ensures Upto(text, m)[0] == text[0]
  {
  }

  lemma StringTruncated(text: seq<u8>, m: nat)
    requires text != [] && StringLength(text).Ok? && StringLength(text).value <= m <= |text|
    ensures StringLength(Upto(text, m)) == StringLength(text)
  {
    hide CharactersLength, After, Upto;
    CutAfter(text, m, 1);
    CharactersTruncated(After(text, 1), m - 1);
  }
}
