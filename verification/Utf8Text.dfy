/** UTF-8 (RFC 3629): what `str::from_utf8` accepts, and the encoding that
    `char::encode_utf8` writes (src/json.rs lines 20-42, src/server.rs line 358). */
module Utf8Text {
  import opened Numbers

  /** Unicode scalar values: everything up to 10FFFF but the surrogates. */
  predicate IsScalar(value: nat)
  {
    value < 0xd800 || 0xdfff < value <= 0x10ffff
  }

  /** The encoding of a scalar value (section 3). */
  function Utf8(scalar: nat): (bytes: seq<u8>)
    requires IsScalar(scalar)
    ensures 1 <= |bytes| <= 4
    ensures |bytes| == if scalar < 0x80 then 1 else if scalar < 0x800 then 2 else if scalar < 0x10000 then 3 else 4
    ensures if scalar < 0x80 then bytes == [scalar] else bytes[0] >= 0x80
  {
    if scalar < 0x80 then [scalar]
    else if scalar < 0x800 then [0xc0 + scalar / 0x40, 0x80 + scalar % 0x40]
    else if scalar < 0x10000 then [0xe0 + scalar / 0x1000, 0x80 + scalar / 0x40 % 0x40, 0x80 + scalar % 0x40]
    else [0xf0 + scalar / 0x40000, 0x80 + scalar / 0x1000 % 0x40, 0x80 + scalar / 0x40 % 0x40, 0x80 + scalar % 0x40]
  }

  predicate Continues(byte: u8)
  {
    0x80 <= byte < 0xc0
  }

  /** The second byte of a character of three bytes: no overlong forms, and no surrogates. */
  predicate SecondOfThree(first: u8, second: u8)
  {
    Continues(second) && 0xe0 <= first < 0xf0 && (first == 0xe0 ==> 0xa0 <= second) && (first == 0xed ==> second < 0xa0)
  }

  /** The second byte of a character of four bytes: no overlong forms, and nothing beyond 10FFFF. */
  predicate SecondOfFour(first: u8, second: u8)
  {
    Continues(second) && 0xf0 <= first < 0xf5 && (first == 0xf0 ==> 0x90 <= second) && (first == 0xf4 ==> second < 0x90)
  }

  /** How many bytes the character in front takes, by the byte ranges of section 4; none if there is no character. */
  function CharacterLength(text: seq<u8>): (n: nat)
    ensures n <= |text|
  {
    if text == [] then 0
    else if text[0] < 0x80 then 1
    else if |text| < 2 then 0
    else if 0xc2 <= text[0] < 0xe0 then if Continues(text[1]) then 2 else 0
    else if |text| < 3 || !Continues(text[2]) then 0
    else if SecondOfThree(text[0], text[1]) then 3
    else if |text| >= 4 && Continues(text[3]) && SecondOfFour(text[0], text[1]) then 4
    else 0
  }

  predicate IsUtf8(text: seq<u8>)
    decreases |text|
  {
    text == [] || (CharacterLength(text) > 0 && IsUtf8(text[CharacterLength(text)..]))
  }

  // ----- the byte ranges are the encodings

  lemma ScalarIsCharacter(scalar: nat, tail: seq<u8>)
    requires IsScalar(scalar)
    ensures CharacterLength(Utf8(scalar) + tail) == |Utf8(scalar)|
  {
    hide CharacterLength;
    EncodingRanges(scalar);
    var bytes := Utf8(scalar);
    RangesDecide(bytes, tail);
  }

  /** Bytes in the ranges of a character. */
  predicate InRanges(bytes: seq<u8>)
  {
    || (|bytes| == 1 && bytes[0] < 0x80)
    || (|bytes| == 2 && 0xc2 <= bytes[0] < 0xe0 && Continues(bytes[1]))
    || (|bytes| == 3 && SecondOfThree(bytes[0], bytes[1]) && Continues(bytes[2]))
    || (|bytes| == 4 && SecondOfFour(bytes[0], bytes[1]) && Continues(bytes[2]) && Continues(bytes[3]))
  }

  lemma RangesDecide(bytes: seq<u8>, tail: seq<u8>)
    requires InRanges(bytes)
    ensures CharacterLength(bytes + tail) == |bytes|
  {
    var text := bytes + tail;
    assert text[0] == bytes[0];
    assert |bytes| > 1 ==> text[1] == bytes[1];
  }

  lemma EncodingRanges(scalar: nat)
    requires IsScalar(scalar)
    ensures InRanges(Utf8(scalar))
  {
  }

  /** Six more bits of a value. */
  function Continued(value: nat, byte: u8): nat
  {
    value * 0x40 + byte % 0x40
  }

  /** The value of a character's bytes. */
  function ValueOf(text: seq<u8>): nat
    requires CharacterLength(text) > 0
  {
    var n := CharacterLength(text);
    if n == 1 then text[0]
    else if n == 2 then Continued(text[0] % 0x20, text[1])
    else if n == 3 then Continued(Continued(text[0] % 0x10, text[1]), text[2])
    else Continued(Continued(Continued(text[0] % 8, text[1]), text[2]), text[3])
  }

  lemma CharacterIsScalar(text: seq<u8>)
    requires CharacterLength(text) > 0
    ensures IsScalar(ValueOf(text)) && text[..CharacterLength(text)] == Utf8(ValueOf(text))
  {
    var n := CharacterLength(text);
    if n == 2 {
      TwoBytes(text[0], text[1]);
      assert text[..2] == [text[0], text[1]];
    } else if n == 3 {
      ThreeBytes(text[0], text[1], text[2]);
      assert text[..3] == [text[0], text[1], text[2]];
    } else if n == 4 {
      FourBytes(text[0], text[1], text[2], text[3]);
      assert text[..4] == [text[0], text[1], text[2], text[3]];
    }
  }

  lemma TwoBytes(a: u8, b: u8)
    requires 0xc2 <= a < 0xe0 && Continues(b)
    ensures
      var value := Continued(a % 0x20, b);
      IsScalar(value) && Utf8(value) == [a, b]
  {
    SixBits(a % 0x20, b % 0x40);
  }

  lemma ThreeBytes(a: u8, b: u8, c: u8)
    requires SecondOfThree(a, b) && Continues(c)
    ensures
      var value := Continued(Continued(a % 0x10, b), c);
      IsScalar(value) && Utf8(value) == [a, b, c]
  {
    hide Continued;
    var value := Continued(Continued(a % 0x10, b), c);
    ThreeRange(a, b, c);
    TwelveBits(Continued(a % 0x10, b), c % 0x40);
    SixBits(Continued(a % 0x10, b), c % 0x40);
    SixBits(a - 0xe0, b - 0x80);
  }

  lemma ThreeRange(a: u8, b: u8, c: u8)
    requires SecondOfThree(a, b) && Continues(c)
    ensures c % 0x40 == c - 0x80 && Continued(a % 0x10, b) == (a - 0xe0) * 0x40 + (b - 0x80)
    ensures
      var value := Continued(Continued(a % 0x10, b), c);
      && value == Continued(a % 0x10, b) * 0x40 + c % 0x40 && 0x800 <= value < 0x10000 && IsScalar(value)
  {
  }

  lemma FourBytes(a: u8, b: u8, c: u8, d: u8)
    requires SecondOfFour(a, b) && Continues(c) && Continues(d)
    ensures
      var value := Continued(Continued(Continued(a % 8, b), c), d);
      IsScalar(value) && Utf8(value) == [a, b, c, d]
  {
    hide Continued;
    var front := Continued(a % 8, b);
    var middle := Continued(front, c);
    FourRange(a, b, c, d);
    TwelveBits(middle, d % 0x40);
    SixBits(middle, d % 0x40);
    SixBits(front, c % 0x40);
    SixBits(a - 0xf0, b - 0x80);
  }

  lemma FourRange(a: u8, b: u8, c: u8, d: u8)
    requires SecondOfFour(a, b) && Continues(c) && Continues(d)
    ensures c % 0x40 == c - 0x80 && d % 0x40 == d - 0x80 && Continued(a % 8, b) == (a - 0xf0) * 0x40 + (b - 0x80)
    ensures
      var middle := Continued(Continued(a % 8, b), c);
      && middle == Continued(a % 8, b) * 0x40 + c % 0x40
      && Continued(middle, d) == middle * 0x40 + d % 0x40 && 0x10000 <= Continued(middle, d) <= 0x10ffff
  {
  }

  lemma SixBits(high: nat, low: nat)
    requires low < 0x40
    ensures (high * 0x40 + low) / 0x40 == high && (high * 0x40 + low) % 0x40 == low
  {
  }

  lemma TwelveBits(high: nat, low: nat)
    requires low < 0x40
    ensures (high * 0x40 + low) / 0x1000 == high / 0x40 && (high * 0x40 + low) / 0x40000 == high / 0x40 / 0x40
  {
  }

  predicate AllScalars(scalars: seq<nat>)
  {
    forall k :: 0 <= k < |scalars| ==> IsScalar(scalars[k])
  }

  function EncodeAll(scalars: seq<nat>): seq<u8>
    requires AllScalars(scalars)
  {
    if scalars == [] then []
    else
      assert AllScalars(scalars[1..]);
      Utf8(scalars[0]) + EncodeAll(scalars[1..])
  }

  predicate Encodes(scalars: seq<nat>, text: seq<u8>)
  {
    AllScalars(scalars) && EncodeAll(scalars) == text
  }

  /** The accepted texts are exactly the encodings of scalar values, one after another. */
  lemma Utf8IsEncoding(text: seq<u8>)
    ensures IsUtf8(text) <==> exists scalars :: Encodes(scalars, text)
  {
    if IsUtf8(text) {
      var scalars := ScalarsOf(text);
    }
    if exists scalars :: Encodes(scalars, text) {
      var scalars :| Encodes(scalars, text);
      EncodingIsUtf8(scalars);
    }
  }

  lemma {:induction false} ScalarsOf(text: seq<u8>) returns (scalars: seq<nat>)
    requires IsUtf8(text)
    ensures Encodes(scalars, text)
    decreases |text|
  {
    hide CharacterLength, Utf8, ValueOf, IsScalar;
    scalars := [];
    if text != [] {
      var n := CharacterLength(text);
      var later := ScalarsOf(text[n..]);
      CharacterIsScalar(text);
      scalars := [ValueOf(text)] + later;
      assert scalars[1..] == later && text == text[..n] + text[n..];
    }
  }

  lemma {:induction false} EncodingIsUtf8(scalars: seq<nat>)
    requires AllScalars(scalars)
    ensures IsUtf8(EncodeAll(scalars))
  {
    hide CharacterLength, Utf8;
    if scalars != [] {
      var later := EncodeAll(scalars[1..]);
      ScalarIsCharacter(scalars[0], later);
      EncodingIsUtf8(scalars[1..]);
      assert (Utf8(scalars[0]) + later)[|Utf8(scalars[0])|..] == later;
    }
  }

  // ----- parts of texts

  /** A character in front, whatever it is the front of. */
  lemma CharacterInFront(text: seq<u8>, n: nat, tail: seq<u8>)
    requires CharacterLength(text) == n == |text| > 0
    ensures CharacterLength(text + tail) == n
  {
    var all := text + tail;
    assert forall k :: 0 <= k < n ==> all[k] == text[k];
  }

  lemma {:induction false} Utf8Append(front: seq<u8>, tail: seq<u8>)
    requires CharacterLength(front) == |front| > 0
    ensures IsUtf8(front + tail) <==> IsUtf8(tail)
  {
    hide CharacterLength;
    CharacterInFront(front, |front|, tail);
    assert (front + tail)[|front|..] == tail;
  }

  /** A text falls apart at every ASCII byte: both sides are UTF-8 again. */
  lemma {:induction false} CutAtAscii(front: seq<u8>, byte: u8, tail: seq<u8>)
    requires byte < 0x80
    ensures IsUtf8(front + [byte] + tail) <==> IsUtf8(front) && IsUtf8(tail)
    decreases |front|
  {
    hide CharacterLength;
    var text := front + [byte] + tail;
    if front == [] {
      OneByte(byte, tail);
      assert [] + [byte] + tail == [byte] + tail && ([byte] + tail)[1..] == tail;
    } else {
      CutCharacter(front, byte, tail);
      var n := CharacterLength(front);
      if n > 0 {
        assert text[n..] == front[n..] + [byte] + tail;
        CutAtAscii(front[n..], byte, tail);
      }
    }
  }

  lemma OneByte(byte: u8, tail: seq<u8>)
    requires byte < 0x80
    ensures CharacterLength([byte] + tail) == 1
  {
  }

  lemma CutCharacter(front: seq<u8>, byte: u8, tail: seq<u8>)
    requires byte < 0x80 && front != []
    ensures CharacterLength(front + [byte] + tail) == CharacterLength(front)
  {
    var text := front + [byte] + tail;
    assert text[0] == front[0];
    assert |front| >= 2 ==> text[1] == front[1];
    assert |front| >= 3 ==> text[2] == front[2];
    assert |front| >= 4 ==> text[3] == front[3];
    assert |front| == 1 ==> text[1] == byte;
    assert |front| == 2 ==> text[2] == byte;
    assert |front| == 3 ==> text[3] == byte;
  }

  lemma {:induction false} AsciiIsUtf8(text: seq<u8>)
    requires forall k :: 0 <= k < |text| ==> text[k] < 0x80
    ensures IsUtf8(text)
  {
    if text != [] {
      AsciiIsUtf8(text[1..]);
    }
  }
}
