/** The literals section of a compressed block (zstd-zero/src/lib.rs lines
    917-994 and 1074-1080, RFC 8878 section 3.1.1.3.1). */
module ZstdLiterals {
  import opened Numbers
  import opened Results
  import opened ZstdErrors
  import opened ZstdBits
  import opened ZstdHistory
  import opened FseTableSpec
  import opened HuffmanCode
  import HuffmanTable
  import HuffmanDescription

  // ----- little-endian fields

  lemma {:induction false} LittleEndianAppend(bytes: seq<u8>, byte: u8)
    ensures LittleEndian(bytes + [byte]) == LittleEndian(bytes) + byte * Pow2(8 * |bytes|)
  {
    if bytes == [] {
      assert [] + [byte] == [byte] && [byte][1..] == [];
    } else {
      assert (bytes + [byte])[1..] == bytes[1..] + [byte];
      LittleEndianAppend(bytes[1..], byte);
      assert Pow2(8) == 256 by { Pow2Values(); }
      Pow2Add(8, 8 * |bytes[1..]|);
      ShiftByte(byte, Pow2(8 * |bytes[1..]|));
    }
  }

  lemma ShiftByte(byte: nat, p: nat)
    ensures 256 * (byte * p) == byte * (256 * p)
  {
  }

  method ReadVariable(bytes: seq<u8>) returns (value: nat)
    ensures value == LittleEndian(bytes)
  {
    hide LittleEndian, Pow2;
    value := 0;
    LittleEndianEmpty();
    assert bytes[..0] == [];
    for index := 0 to |bytes|
      invariant value == LittleEndian(bytes[..index])
    {
      LittleEndianAppend(bytes[..index], bytes[index]);
      assert bytes[..index + 1] == bytes[..index] + [bytes[index]];
      value := value + bytes[index] * Pow2(8 * index);
    }
    assert bytes[..|bytes|] == bytes;
  }

  lemma LittleEndianEmpty()
    ensures LittleEndian([]) == 0
  {
  }

  // ----- the section

  datatype Section = Section(literals: seq<u8>, end: nat, code: HuffmanTable.CodeView)

  function EnsureSpace(required: nat, provided: nat, limit: nat): (r: Result<(), DecodeError>)
  {
    if required > limit then Err(InvalidBlock)
    else if required > provided then Err(LiteralScratchTooSmall(required, provided))
    else Ok(())
  }

  /** Raw literals, or one literal repeated. */
  function PlainLiterals(input: seq<u8>, code: HuffmanTable.CodeView, space: nat, limit: nat)
    : (r: Result<Section, DecodeError>)
    requires |input| > 0 && input[0] % 4 <= 1
    ensures r.Ok? ==> |r.value.literals| <= Min(space, limit) && r.value.end <= |input|
  {
    var format := input[0] / 4 % 4;
    var header: nat := if format == 1 then 2 else if format == 3 then 3 else 1;
    if |input| < header then Err(InvalidBlock)
    else
      var regenerated := LittleEndian(input[..header]) / (if header == 1 then 8 else 16);
      var _ :- EnsureSpace(regenerated, space, limit);
      if input[0] % 4 == 0 then
        if header + regenerated > |input| then Err(InvalidBlock)
        else Ok(Section(input[header..header + regenerated], header + regenerated, code))
      else if |input| <= header then Err(InvalidBlock)
      else Ok(Section(Run(input[header], regenerated), header + 1, code))
  }

  /** Size of the header, and of each of its two size fields. */
  function CodedHeader(format: nat): (r: (nat, nat))
    ensures r.0 <= 5
  {
    if format <= 1 then (3, 10) else if format == 2 then (4, 14) else (5, 18)
  }

  /** Literals under a Huffman code that is described here, or kept from an earlier block. */
  ghost function CodedLiterals(input: seq<u8>, code: HuffmanTable.CodeView, space: nat, limit: nat)
    : (r: Result<Section, DecodeError>)
    requires |input| > 0 && HuffmanTable.WellFormed(code)
    ensures r.Ok? ==> HuffmanTable.WellFormed(r.value.code) && r.value.end <= |input|
  {
    var format := input[0] / 4 % 4;
    var (header, sizeBits) := CodedHeader(format);
    if |input| < header then Err(InvalidBlock)
    else
      var packed := LittleEndian(input[..header]);
      var regenerated := packed / 16 % Pow2(sizeBits);
      var compressed := packed / Pow2(4 + sizeBits) % Pow2(sizeBits);
      var _ :- EnsureSpace(regenerated, space, limit);
      if header + compressed > |input| then Err(InvalidBlock)
      else
        var (current, streams) :- Tree(input[header..header + compressed], code, input[0] % 4 == 2);
        var literals :- if format == 0 then HuffmanTable.StrictDecode(current, streams, regenerated)
                        else HuffmanTable.DecodeFour(current, streams, regenerated);
        Ok(Section(literals, header + compressed, current))
  }

  /** The code in force, and the streams behind its description. */
  ghost function Tree(encoded: seq<u8>, code: HuffmanTable.CodeView, described: bool)
    : (r: Result<(HuffmanTable.CodeView, seq<u8>), DecodeError>)
    requires HuffmanTable.WellFormed(code)
    ensures r.Ok? ==> HuffmanTable.WellFormed(r.value.0) && r.value.0 != HuffmanTable.NoCode
  {
    if !described then
      if code == HuffmanTable.NoCode then Err(InvalidEntropyTable) else Ok((code, encoded))
    else
      var (weights, size) :- HuffmanDescription.TreeOf(encoded);
      if !Acceptable(weights) then Err(InvalidEntropyTable)
      else
        AcceptableIsComplete(weights);
        Ok((HuffmanTable.BuiltCode(weights), encoded[size..]))
  }

  /** A block's literals, where they end, and the Huffman code they leave behind. */
  ghost function LiteralsOf(input: seq<u8>, code: HuffmanTable.CodeView, space: nat, limit: nat)
    : (r: Result<Section, DecodeError>)
    requires HuffmanTable.WellFormed(code)
    ensures r.Ok? ==> HuffmanTable.WellFormed(r.value.code) && r.value.end <= |input|
  {
    if |input| == 0 then Err(InvalidBlock)
    else if input[0] % 4 <= 1 then PlainLiterals(input, code, space, limit)
    else CodedLiterals(input, code, space, limit)
  }

  // ----- the decoder

  method DecodePlain(input: seq<u8>, output: array<u8>, limit: nat, ghost code: HuffmanTable.CodeView)
    returns (r: Result<(nat, nat), DecodeError>)
    requires |input| > 0 && input[0] % 4 <= 1
    modifies output
    ensures
      match PlainLiterals(input, code, output.Length, limit)
      case Err(e) => r == Err(e)
      case Ok(section) =>
        && r == Ok((|section.literals|, section.end))
        && |section.literals| <= output.Length && output[..|section.literals|] == section.literals
  {
    hide LittleEndian;
    var kind, format := input[0] % 4, input[0] / 4 % 4;
    var header: nat := if format == 1 then 2 else if format == 3 then 3 else 1;
    if |input| < header {
      return Err(InvalidBlock);
    }
    var packed := ReadVariable(input[..header]);
    var regenerated := packed / (if header == 1 then 8 else 16);
    var _ :- EnsureSpace(regenerated, output.Length, limit);
    if kind == 0 {
      var end := header + regenerated;
      if end > |input| {
        return Err(InvalidBlock);
      }
      for i := 0 to regenerated
        invariant forall k :: 0 <= k < i ==> output[k] == input[header + k]
      {
        output[i] := input[header + i];
      }
      r := Ok((regenerated, end));
    } else {
      if |input| <= header {
        return Err(InvalidBlock);
      }
      for i := 0 to regenerated
        invariant forall k :: 0 <= k < i ==> output[k] == input[header]
      {
        output[i] := input[header];
      }
      r := Ok((regenerated, header + 1));
    }
  }

  method DecodeCoded(input: seq<u8>, output: array<u8>, table: HuffmanTable.Table, scratch: array<i16>, limit: nat)
    returns (r: Result<(nat, nat), DecodeError>)
    requires |input| > 0 && table.Valid() && HuffmanTable.WellFormed(table.View()) && scratch.Length >= MAX_SYMBOLS
    modifies output, table, table.entries, table.scratch, table.scratch.entries, scratch
    ensures table.Valid()
    ensures
      match CodedLiterals(input, old(table.View()), output.Length, limit)
      case Err(e) => r == Err(e)
      case Ok(section) =>
        && r == Ok((|section.literals|, section.end)) && table.View() == section.code
        && |section.literals| <= output.Length && output[..|section.literals|] == section.literals
  {
    hide LittleEndian, Pow2, HuffmanTable.StrictDecode, HuffmanTable.DecodeFour, HuffmanDescription.TreeOf, Acceptable,
        HuffmanTable.WellFormed, HuffmanTable.BuiltCode;
    var kind, format := input[0] % 4, input[0] / 4 % 4;
    var (header, sizeBits) := CodedHeader(format);
    if |input| < header {
      return Err(InvalidBlock);
    }
    var packed := ReadVariable(input[..header]);
    var regenerated := packed / 16 % Pow2(sizeBits);
    var compressed := packed / Pow2(4 + sizeBits) % Pow2(sizeBits);
    var _ :- EnsureSpace(regenerated, output.Length, limit);
    var end := header + compressed;
    if end > |input| {
      return Err(InvalidBlock);
    }
    var encoded := input[header..end];
    if kind == 2 {
      TreeFits(encoded);
      var size :- HuffmanDescription.ReadTree(table, encoded, scratch);
      encoded := encoded[size..];
    } else if !table.IsValid() {
      return Err(InvalidEntropyTable);
    }
    StillWellFormed(table);
    if format == 0 {
      var _ :- table.DecodeInto(encoded, output, 0, regenerated);
    } else {
      var _ :- table.DecodeFourInto(encoded, output, regenerated);
    }
    assert output[0..regenerated] == output[..regenerated];
    r := Ok((regenerated, end));
  }

  lemma TreeFits(encoded: seq<u8>)
    ensures HuffmanDescription.TreeOf(encoded).Ok? ==> HuffmanDescription.TreeOf(encoded).value.1 <= |encoded|
  {
  }

  lemma StillWellFormed(table: HuffmanTable.Table)
    requires table.Valid()
    ensures HuffmanTable.WellFormed(table.View())
  {
  }

  /** Decodes a block's literals to the start of `output`; returns how many, and where they end. */
  method DecodeLiterals(input: seq<u8>, output: array<u8>, table: HuffmanTable.Table, scratch: array<i16>, limit: nat)
    returns (r: Result<(nat, nat), DecodeError>)
    requires table.Valid() && HuffmanTable.WellFormed(table.View()) && scratch.Length >= MAX_SYMBOLS
    modifies output, table, table.entries, table.scratch, table.scratch.entries, scratch
    ensures table.Valid()
    ensures
      match LiteralsOf(input, old(table.View()), output.Length, limit)
      case Err(e) => r == Err(e)
      case Ok(section) =>
        && r == Ok((|section.literals|, section.end)) && table.View() == section.code
        && |section.literals| <= output.Length && output[..|section.literals|] == section.literals
  {
    hide CodedLiterals, PlainLiterals, HuffmanTable.WellFormed;
    if |input| == 0 {
      return Err(InvalidBlock);
    }
    if input[0] % 4 <= 1 {
      r := DecodePlain(input, output, limit, table.View());
      PlainKeepsCode(input, table.View(), output.Length, limit);
    } else {
      r := DecodeCoded(input, output, table, scratch, limit);
    }
  }

  lemma PlainKeepsCode(input: seq<u8>, code: HuffmanTable.CodeView, space: nat, limit: nat)
    requires |input| > 0 && input[0] % 4 <= 1
    ensures PlainLiterals(input, code, space, limit).Ok? ==> PlainLiterals(input, code, space, limit).value.code == code
  {
  }
}
