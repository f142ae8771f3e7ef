/** PAX extended headers (src/tar.rs lines 443-476 and 990-1045): records
    whose length counts itself. */
module TarPax {
  import opened Numbers
  import opened Results
  import opened AsciiText
  import opened TarErrors
  import opened TarHeader

  const NEWLINE: u8 := 0x0a
  const EQUALS: u8 := 0x3d

  // ----- records

  datatype PaxRecord = PaxRecord(key: seq<u8>, value: seq<u8>)

  /** One record, "length key=value\\n", and how many bytes it takes; the length is that of the whole record. */
  function ParseRecord(bytes: seq<u8>): (r: Result<(PaxRecord, nat), PaxError>)
    ensures r.Ok? ==> 1 < r.value.1 <= |bytes| && r.value.0.key != [] && EQUALS !in r.value.0.key
  {
    var space := FirstOf(bytes, SPACE);
    if space == |bytes| then Err(InvalidLength)
    else
      match Decimal(bytes[..space])
      case None => Err(InvalidLength)
      case Some(length) =>
        if !(space + 1 <= length <= |bytes|) then Err(InvalidLength)
        else
          var record := bytes[space + 1..length];
          if record == [] || record[|record| - 1] != NEWLINE then Err(InvalidRecord)
          else
            var line := record[..|record| - 1];
            var equals := FirstOf(line, EQUALS);
            if equals == |line| || equals == 0 then Err(InvalidRecord)
            else Ok((PaxRecord(line[..equals], line[equals + 1..]), length))
  }

  /** A record as it is written, if `length` is its true length. */
  function FormatRecord(record: PaxRecord, length: nat): seq<u8>
  {
    Digits(length) + [SPACE] + record.key + [EQUALS] + record.value + [NEWLINE]
  }

  /** A record reads back, whatever follows it, even newlines and equals signs in its value. */
  lemma RecordReadsBack(record: PaxRecord, length: nat, later: seq<u8>)
    requires record.key != [] && EQUALS !in record.key
    requires length == |FormatRecord(record, length)| && length <= U64_MAX
    ensures ParseRecord(FormatRecord(record, length) + later) == Ok((record, length))
  {
    hide Digits, DecimalValue, FirstOf;
    var digits := Digits(length);
    var line := record.key + [EQUALS] + record.value;
    var bytes := FormatRecord(record, length) + later;
    DecimalOfDigits(length);
    Layout(digits, line, later, bytes);
    FirstIs(bytes, SPACE, |digits|);
    FirstIs(line, EQUALS, |record.key|);
    assert line[..|record.key|] == record.key && line[|record.key| + 1..] == record.value;
  }

  lemma Layout(digits: seq<u8>, line: seq<u8>, later: seq<u8>, bytes: seq<u8>)
    requires bytes == digits + [SPACE] + line + [NEWLINE] + later
    requires forall k :: 0 <= k < |digits| ==> IsDigit(digits[k])
    ensures |bytes| >= |digits| + |line| + 2
    ensures bytes[..|digits|] == digits && bytes[|digits|] == SPACE
    ensures forall k :: 0 <= k < |digits| ==> bytes[k] != SPACE
    ensures bytes[|digits| + 1..|digits| + 1 + |line| + 1] == line + [NEWLINE]
    ensures (line + [NEWLINE])[..|line|] == line
  {
    assert forall k :: 0 <= k < |digits| ==> bytes[k] == digits[k];
  }

  // ----- what a header's records override

  datatype Overrides = Overrides(size: Option<seq<u8>>, path: Option<seq<u8>>, link: Option<seq<u8>>)

  const NO_OVERRIDES := Overrides(None, None, None)

  /** "size", "path" and "linkpath" */
  const SIZE_KEY: seq<u8> := [0x73, 0x69, 0x7a, 0x65]
  const PATH_KEY: seq<u8> := [0x70, 0x61, 0x74, 0x68]
  const LINK_KEY: seq<u8> := [0x6c, 0x69, 0x6e, 0x6b, 0x70, 0x61, 0x74, 0x68]

  function AddOverride(so: Overrides, record: PaxRecord): Result<Overrides, PaxError>
  {
    if record.key == SIZE_KEY then if so.size.Some? then Err(InvalidRecord) else Ok(so.(size := Some(record.value)))
    else if record.key == PATH_KEY then if so.path.Some? then Err(InvalidRecord)
        else Ok(so.(path := Some(record.value)))
    else if record.key == LINK_KEY then if so.link.Some? then Err(InvalidRecord)
        else Ok(so.(link := Some(record.value)))
    else Ok(so)
  }

  function OverridesFrom(bytes: seq<u8>, so: Overrides): Result<Overrides, PaxError>
    decreases |bytes|
  {
    if bytes == [] then Ok(so)
    else
      var (record, used) :- ParseRecord(bytes);
      var next :- AddOverride(so, record);
      OverridesFrom(bytes[used..], next)
  }

  /** All records parse. */
  function Validated(bytes: seq<u8>): Result<(), PaxError>
    decreases |bytes|
  {
    if bytes == [] then Ok(())
    else
      var (_, used) :- ParseRecord(bytes);
      Validated(bytes[used..])
  }

  method ValidatePax(bytes: seq<u8>) returns (r: Result<(), PaxError>)
    ensures r == Validated(bytes)
  {
    var rest := bytes;
    while rest != []
      invariant Validated(rest) == Validated(bytes)
      decreases |rest|
    {
      var parsed :- ParseRecord(rest);
      rest := rest[parsed.1..];
    }
    r := Ok(());
  }

  method PaxOverrides(bytes: seq<u8>) returns (r: Result<Overrides, PaxError>)
    ensures r == OverridesFrom(bytes, NO_OVERRIDES)
  {
    var values := NO_OVERRIDES;
    var rest := bytes;
    while rest != []
      invariant OverridesFrom(rest, values) == OverridesFrom(bytes, NO_OVERRIDES)
      decreases |rest|
    {
      var parsed :- ParseRecord(rest);
      values :- AddOverride(values, parsed.0);
      rest := rest[parsed.1..];
    }
    r := Ok(values);
  }

  /** Records that have been validated can only fail to override by repeating a key. */
  lemma {:induction false} ValidatedOverrides(bytes: seq<u8>, so: Overrides)
    requires Validated(bytes).Ok?
    ensures OverridesFrom(bytes, so).Ok? || OverridesFrom(bytes, so) == Err(InvalidRecord)
    decreases |bytes|
  {
    if bytes != [] {
      var parsed := ParseRecord(bytes);
      var next := AddOverride(so, parsed.value.0);
      if next.Ok? {
        ValidatedOverrides(bytes[parsed.value.1..], next.value);
      }
    }
  }
}
