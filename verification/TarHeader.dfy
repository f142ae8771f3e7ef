/** Tar header fields (src/tar.rs lines 149-162 and 314-389): octal
    numbers, checksums, padding and names. */
module TarHeader {
  import opened Numbers
  import opened Results
  import opened AsciiText

  const BLOCK_SIZE: nat := 512
  const ZERO: u8 := 0x30
  const SPACE: u8 := 0x20
  const SLASH: u8 := 0x2f

  function Zeros(n: nat): (z: seq<u8>)
    ensures |z| == n
  {
    seq(n, _ => 0)
  }

  lemma ZerosAppend(a: nat, b: nat)
    ensures Zeros(a) + Zeros(b) == Zeros(a + b)
  {
  }

  // ----- octal numbers

  function Pow8(n: nat): (p: nat)
    ensures p >= 1
  {
    if n == 0 then 1 else 8 * Pow8(n - 1)
  }

  predicate IsOctalDigit(byte: u8)
  {
    ZERO <= byte < ZERO + 8
  }

  /** The number that octal digits spell. */
  function OctalValue(digits: seq<u8>): nat
    requires forall k :: 0 <= k < |digits| ==> IsOctalDigit(digits[k])
  {
    if digits == [] then 0
    else
      assert IsOctalDigit(digits[|digits| - 1]);
      8 * OctalValue(digits[..|digits| - 1]) + (digits[|digits| - 1] as int - ZERO as int)
  }

  function OctalDigit(value: nat): u8
  {
    ZERO as int + value % 8
  }

  /** The n low octal digits of a number, the highest first. */
  function OctalDigits(value: nat, n: nat): (digits: seq<u8>)
    ensures |digits| == n && forall k :: 0 <= k < n ==> IsOctalDigit(digits[k])
  {
    if n == 0 then [] else OctalDigits(value / 8, n - 1) + [OctalDigit(value)]
  }

  /** Digits and value are inverse to each other, as long as the digits suffice. */
  lemma {:induction false} OctalRoundTrip(value: nat, n: nat)
    requires value < Pow8(n)
    ensures OctalValue(OctalDigits(value, n)) == value
  {
    if n > 0 {
      OctalRoundTrip(value / 8, n - 1);
      var digits := OctalDigits(value, n);
      assert digits[..n - 1] == OctalDigits(value / 8, n - 1);
    }
  }

  /** Writes a number as octal digits and a NUL into `field[from..to]`; fails if the digits do not suffice. */
  method WriteOctal(field: array<u8>, from: nat, to: nat, number: nat) returns (r: Result<(), ()>)
    requires from < to <= field.Length
    modifies field
    ensures r.Ok? <==> number < Pow8(to - from - 1)
    ensures r.Ok? ==> field[from..to] == OctalDigits(number, to - from - 1) + [0]
    ensures forall k :: 0 <= k < from || to <= k < field.Length ==> field[k] == old(field[k])
  {
    var digits: nat := to - from - 1;
    var value: nat := number;
    field[to - 1] := 0;
    assert field[from + digits..to] == [0];
    ghost var tail: seq<u8> := [];
    for index := digits downto 0
      invariant field[from + index..to] == tail + [0]
      invariant OctalDigits(number, digits) == OctalDigits(value, index) + tail
      invariant number < Pow8(digits) <==> value < Pow8(index)
      invariant forall k :: 0 <= k < from || to <= k < field.Length ==> field[k] == old(field[k])
    {
      field[from + index] := OctalDigit(value);
      OctalStep(value, index, tail, OctalDigits(number, digits));
      tail := [OctalDigit(value)] + tail;
      assert field[from + index..to] == [field[from + index]] + field[from + index + 1..to];
      value := value / 8;
    }
    assert OctalDigits(value, 0) + tail == tail;
    r := if value != 0 then Err(()) else Ok(());
  }

  lemma OctalStep(value: nat, index: nat, tail: seq<u8>, all: seq<u8>)
    requires all == OctalDigits(value, index + 1) + tail
    ensures all == OctalDigits(value / 8, index) + ([OctalDigit(value)] + tail)
    ensures value < Pow8(index + 1) <==> value / 8 < Pow8(index)
  {
  }

  // ----- reading numbers

  function SpaceRun(field: seq<u8>): (n: nat)
    ensures n <= |field| && (forall k :: 0 <= k < n ==> field[k] == SPACE) && (n < |field| ==> field[n] != SPACE)
  {
    if field == [] || field[0] != SPACE then 0
    else
      var later := SpaceRun(field[1..]);
      assert forall k :: 1 <= k < 1 + later ==> field[k] == field[1..][k - 1];
      1 + later
  }

  function DigitRun(field: seq<u8>): (n: nat)
    ensures n <= |field| && (forall k :: 0 <= k < n ==> IsOctalDigit(field[k]))
        && (n < |field| ==> !IsOctalDigit(field[n]))
  {
    if field == [] || !IsOctalDigit(field[0]) then 0
    else
      var later := DigitRun(field[1..]);
      assert forall k :: 1 <= k < 1 + later ==> field[k] == field[1..][k - 1];
      1 + later
  }

  predicate IsTerminator(byte: u8)
  {
    byte == 0 || byte == SPACE
  }

  /** Spaces, then at least one octal digit, then only NULs and spaces; the number must fit 64 bits. */
  function ParseOctal(field: seq<u8>): Option<u64>
  {
    var body := field[SpaceRun(field)..];
    var n := DigitRun(body);
    if n > 0 && (forall k :: n <= k < |body| ==> IsTerminator(body[k])) && OctalValue(body[..n]) <= U64_MAX
    then Some(OctalValue(body[..n])) else None
  }

  lemma {:induction false} OctalValueGrows(digits: seq<u8>, n: nat)
    requires n <= |digits| && forall k :: 0 <= k < |digits| ==> IsOctalDigit(digits[k])
    ensures OctalValue(digits[..n]) <= OctalValue(digits)
  {
    if n < |digits| {
      OctalValueGrows(digits[..|digits| - 1], n);
      assert digits[..|digits| - 1][..n] == digits[..n];
      assert IsOctalDigit(digits[|digits| - 1]);
    } else {
      assert digits[..n] == digits;
    }
  }

  /** What a reader of the field knows after i bytes. */
  ghost predicate OctalSeen(field: seq<u8>, i: nat, value: nat, sawDigit: bool, sawTerminator: bool)
  {
    var lead := SpaceRun(field);
    var body := field[lead..];
    var n := DigitRun(body);
    && i <= |field|
    && (!sawDigit ==> i <= lead && value == 0 && !sawTerminator)
    && (sawDigit && !sawTerminator ==> lead < i <= lead + n && value == OctalValue(body[..i - lead]))
    && (sawTerminator ==>
          && sawDigit && n > 0 && lead + n < i && value == OctalValue(body[..n])
          && forall k :: n <= k < i - lead ==> IsTerminator(body[k]))
  }

  lemma DigitSeen(field: seq<u8>, i: nat, value: nat, sawDigit: bool)
    requires i < |field| && OctalSeen(field, i, value, sawDigit, false) && IsOctalDigit(field[i])
    ensures OctalSeen(field, i + 1, 8 * value + (field[i] as int - ZERO as int), true, false)
    ensures 8 * value + (field[i] as int - ZERO as int) > U64_MAX ==> ParseOctal(field) == None
  {
    hide SpaceRun, DigitRun, OctalValue;
    var lead := SpaceRun(field);
    LeadBefore(field, i);
    assert field[lead..][i - lead] == field[i];
    NextDigit(field[lead..], i - lead);
  }

  lemma LeadBefore(field: seq<u8>, i: nat)
    requires i < |field| && IsOctalDigit(field[i])
    ensures SpaceRun(field) <= i && OctalValue(field[SpaceRun(field)..][..0]) == 0
  {
  }

  lemma NextDigit(body: seq<u8>, j: nat)
    requires j < |body| && j <= DigitRun(body) && IsOctalDigit(body[j])
    ensures j < DigitRun(body) && OctalValue(body[..j + 1]) <= OctalValue(body[..DigitRun(body)])
    ensures OctalValue(body[..j + 1]) == 8 * OctalValue(body[..j]) + (body[j] as int - ZERO as int)
  {
    var n := DigitRun(body);
    assert body[..j + 1][..j] == body[..j];
    OctalValueGrows(body[..n], j + 1);
    assert body[..n][..j + 1] == body[..j + 1];
  }

  lemma OtherSeen(field: seq<u8>, i: nat, value: nat, sawDigit: bool, sawTerminator: bool)
    requires i < |field| && OctalSeen(field, i, value, sawDigit, sawTerminator)
    requires sawTerminator || !IsOctalDigit(field[i])
    ensures !sawDigit ==> !sawTerminator
    ensures
      if !sawDigit && field[i] == SPACE then OctalSeen(field, i + 1, value, false, false)
      else if sawDigit && IsTerminator(field[i]) then OctalSeen(field, i + 1, value, true, true)
      else ParseOctal(field) == None
  {
    var lead := SpaceRun(field);
    var body := field[lead..];
    if i >= lead {
      assert body[i - lead] == field[i];
    }
  }

  method ParseOctalField(field: seq<u8>) returns (r: Option<u64>)
    ensures r == ParseOctal(field)
  {
    hide OctalSeen, ParseOctal;
    var value: u64 := 0;
    var sawDigit, sawTerminator := false, false;
    NothingSeen(field);
    for i := 0 to |field|
      invariant OctalSeen(field, i, value, sawDigit, sawTerminator)
    {
      var byte := field[i];
      if IsOctalDigit(byte) && !sawTerminator {
        DigitSeen(field, i, value, sawDigit);
        sawDigit := true;
        var next := 8 * value + (byte as int - ZERO as int);
        if next > U64_MAX {
          return None;
        }
        value := next;
      } else {
        OtherSeen(field, i, value, sawDigit, sawTerminator);
        if byte == SPACE && !sawDigit {
        } else if IsTerminator(byte) && sawDigit {
          sawTerminator := true;
        } else {
          return None;
        }
      }
    }
    AllSeen(field, value, sawDigit, sawTerminator);
    r := if sawDigit then Some(value) else None;
  }

  lemma NothingSeen(field: seq<u8>)
    ensures OctalSeen(field, 0, 0, false, false)
  {
  }

  lemma AllSeen(field: seq<u8>, value: u64, sawDigit: bool, sawTerminator: bool)
    requires OctalSeen(field, |field|, value, sawDigit, sawTerminator)
    ensures ParseOctal(field) == if sawDigit then Some(value) else None
  {
  }

  /** A written field reads back. */
  lemma OctalFieldRoundTrip(value: nat, n: nat, terminators: seq<u8>)
    requires 0 < n && value < Pow8(n) && value <= U64_MAX
    requires forall k :: 0 <= k < |terminators| ==> IsTerminator(terminators[k])
    ensures ParseOctal(OctalDigits(value, n) + terminators) == Some(value)
  {
    var digits := OctalDigits(value, n);
    var field := digits + terminators;
    OctalRoundTrip(value, n);
    assert forall k :: 0 <= k < n ==> field[k] == digits[k];
    assert n < |field| ==> field[n] == terminators[0];
    assert IsOctalDigit(field[0]);
    assert SpaceRun(field) == 0 && field[0..] == field;
    assert DigitRun(field) == n;
    assert field[..n] == digits;
  }

  // ----- base-256 numbers

  /** Big-endian, as GNU tar writes numbers that octal cannot hold. */
  function BigEndian(bytes: seq<u8>): nat
  {
    if bytes == [] then 0 else 256 * BigEndian(bytes[..|bytes| - 1]) + bytes[|bytes| - 1]
  }

  /** The first byte counts without its top bit, which marks the encoding. */
  function ParseNumber(field: seq<u8>): Option<u64>
  {
    if field == [] then None
    else if field[0] < 0x80 then ParseOctal(field)
    else
      var value := BigEndian([field[0] as int - 0x80] + field[1..]);
      if value <= U64_MAX then Some(value) else None
  }

  lemma {:induction false} BigEndianGrows(bytes: seq<u8>, n: nat)
    requires n <= |bytes|
    ensures BigEndian(bytes[..n]) <= BigEndian(bytes)
  {
    if n < |bytes| {
      BigEndianGrows(bytes[..|bytes| - 1], n);
      assert bytes[..|bytes| - 1][..n] == bytes[..n];
    } else {
      assert bytes[..n] == bytes;
    }
  }

  method ParseNumberField(field: seq<u8>) returns (r: Option<u64>)
    ensures r == ParseNumber(field)
  {
    if field == [] {
      return None;
    }
    if field[0] < 0x80 {
      r := ParseOctalField(field);
      return;
    }
    var value: u64 := field[0] as int - 0x80;
    ghost var bytes: seq<u8> := [field[0] as int - 0x80] + field[1..];
    assert bytes[..1] == [field[0] as int - 0x80] && bytes[..1][..0] == [];
    for i := 1 to |field|
      invariant value == BigEndian(bytes[..i])
    {
      assert bytes[..i + 1][..i] == bytes[..i];
      BigEndianGrows(bytes, i + 1);
      var next := 256 * value + field[i];
      if next > U64_MAX {
        return None;
      }
      value := next;
    }
    assert bytes[..|field|] == bytes;
    r := Some(value);
  }

  // ----- checksums

  function Sum(bytes: seq<u8>): nat
  {
    if bytes == [] then 0 else Sum(bytes[..|bytes| - 1]) + bytes[|bytes| - 1]
  }

  lemma {:induction false} SumConcat(a: seq<u8>, b: seq<u8>)
    ensures Sum(a + b) == Sum(a) + Sum(b)
  {
    if b == [] {
      assert a + b == a;
    } else {
      assert (a + b)[..|a + b| - 1] == a + b[..|b| - 1];
      SumConcat(a, b[..|b| - 1]);
    }
  }

  lemma {:induction false} SumBound(bytes: seq<u8>)
    ensures Sum(bytes) <= 255 * |bytes|
  {
    if bytes != [] {
      SumBound(bytes[..|bytes| - 1]);
    }
  }

  /** The checksum counts its own field as eight spaces. */
  ghost predicate ChecksumMatches(header: seq<u8>)
    requires |header| == BLOCK_SIZE
  {
    ParseOctal(header[148..156]) == Some(Sum(header[..148]) + 8 * SPACE as int + Sum(header[156..]))
  }

  // ----- padding and names

  function PaddingFor(size: nat): (padding: nat)
    ensures padding < BLOCK_SIZE
  {
    (BLOCK_SIZE - size % BLOCK_SIZE) % BLOCK_SIZE
  }

  /** Content and padding fill as few whole blocks as hold the content. */
  lemma PaddingFills(size: nat)
    ensures size + PaddingFor(size) == BLOCK_SIZE * ((size + BLOCK_SIZE - 1) / BLOCK_SIZE)
  {
  }

  function NulTerminated(field: seq<u8>): seq<u8>
  {
    field[..FirstOf(field, 0)]
  }

  /** The path of a header: its name, behind its prefix if it has one. */
  function HeaderPath(header: seq<u8>): seq<u8>
    requires |header| == BLOCK_SIZE
  {
    var name, prefix := NulTerminated(header[0..100]), NulTerminated(header[345..500]);
    if prefix == [] then name else prefix + [SLASH] + name
  }

  lemma {:induction false} NulTerminatedName(name: seq<u8>, n: nat)
    requires 0 !in name
    ensures NulTerminated(name + Zeros(n)) == name
  {
    var field := name + Zeros(n);
    assert forall k :: 0 <= k < |name| ==> field[k] == name[k];
    assert n > 0 ==> field[|name|] == 0;
    assert FirstOf(field, 0) == |name|;
  }
}
