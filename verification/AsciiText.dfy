/** Digits, decimal numbers and searching in ASCII text, as the tar, JSON and registry code use them. */
module AsciiText {
  import opened Numbers
  import opened Results

  // ----- decimal numbers

  predicate IsDigit(byte: u8)
  {
    0x30 <= byte <= 0x39
  }

  function DecimalValue(digits: seq<u8>): nat
    requires forall k :: 0 <= k < |digits| ==> IsDigit(digits[k])
  {
    if digits == [] then 0
    else
      assert IsDigit(digits[|digits| - 1]);
      10 * DecimalValue(digits[..|digits| - 1]) + (digits[|digits| - 1] as int - 0x30)
  }

  /** At least one digit, nothing but digits, and a value that fits 64 bits. */
  function Decimal(bytes: seq<u8>): Option<u64>
  {
    if bytes != [] && (forall k :: 0 <= k < |bytes| ==> IsDigit(bytes[k])) && DecimalValue(bytes) <= U64_MAX
    then Some(DecimalValue(bytes)) else None
  }

  /** The shortest digits of a number. */
  function Digits(value: nat): (digits: seq<u8>)
    ensures digits != [] && forall k :: 0 <= k < |digits| ==> IsDigit(digits[k])
  {
    var last: u8 := 0x30 + value % 10;
    if value < 10 then [last] else Digits(value / 10) + [last]
  }

  lemma {:induction false} DecimalOfDigits(value: nat)
    ensures DecimalValue(Digits(value)) == value
  {
    if value >= 10 {
      DecimalOfDigits(value / 10);
      assert Digits(value)[..|Digits(value)| - 1] == Digits(value / 10);
    } else {
      assert Digits(value)[..0] == [];
    }
  }

  // ----- hexadecimal digits

  function HexValue(byte: u8): (value: Option<nat>)
    ensures value.Some? ==> value.value < 16
  {
    if 0x30 <= byte <= 0x39 then Some(byte as int - 0x30)
    else if 0x61 <= byte <= 0x66 then Some(byte as int - 0x61 + 10)
    else if 0x41 <= byte <= 0x46 then Some(byte as int - 0x41 + 10)
    else None
  }

  // ----- searching

  function FirstOf(bytes: seq<u8>, byte: u8): (n: nat)
    ensures n <= |bytes| && (forall k :: 0 <= k < n ==> bytes[k] != byte) && (n < |bytes| ==> bytes[n] == byte)
  {
    if bytes == [] || bytes[0] == byte then 0
    else
      var later := FirstOf(bytes[1..], byte);
      assert forall k :: 1 <= k < 1 + later ==> bytes[k] == bytes[1..][k - 1];
      1 + later
  }

  lemma FirstIs(bytes: seq<u8>, byte: u8, n: nat)
    requires n < |bytes| && bytes[n] == byte && forall k :: 0 <= k < n ==> bytes[k] != byte
    ensures FirstOf(bytes, byte) == n
  {
  }
}
