/** Bit strings as bytes, and described tables: what the readers of
    zstd-zero/src/bitstream.rs and zstd-zero/src/fse.rs lines 189-255 read back. */
module ZstdPacking {
  import opened Numbers
  import opened Results
  import opened ZstdBits
  import opened FseTableSpec
  import opened FseTable
  import opened FseCoding
  import opened ZstdHeaders
  import FseDescription

  // ----- bit strings as bytes

  /** The bits below an end marker. */
  function Packed(s: seq<bit>): seq<u8>
  {
    LittleBytes(Pow2(|s|) + Msb(s), |s| / 8 + 1)
  }

  lemma PackedPayload(s: seq<bit>)
    ensures Payload(Packed(s)) == Some(s)
  {
    hide Pow2, Msb, Field, LittleEndian, LittleBytes, Downward;
    var n, data := |s|, Packed(s);
    var k, i := n / 8, n % 8;
    PackedFits(s);
    LittleBytesRead(Pow2(n) + Msb(s), k + 1);
    LittleEndianIsField(data, 0, |data|);
    assert data[0..|data|] == data;
    FieldSplit(data, 0, n, 8 * |data| - n);
    DivModUnique(Pow2(n) + Msb(s), Pow2(n), 1, Msb(s));
    DivModUnique(Pow2(n) + Msb(s), Pow2(n), Field(data, n, 8 * |data| - n), Field(data, 0, n));
    assert Field(data, n, 8 * |data| - n) == 1 && Field(data, 0, n) == Msb(s);
    FieldWithinByte(data, k, i);
    QuotientOne(data[k], Pow2(i));
    Log2Unique(data[k], i);
    DownwardValue(data, n, n);
    assert Downward(data, n)[..n] == Downward(data, n);
    MsbInjective(Downward(data, n), s);
  }

  lemma PackedIsSome(s: seq<bit>)
    ensures Packed(s) != []
  {
    hide Pow2, Msb;
  }

  lemma QuotientOne(a: nat, b: nat)
    requires b > 0 && a / b == 1
    ensures b <= a < 2 * b
  {
  }

  lemma PackedFits(s: seq<bit>)
    ensures Pow2(|s|) + Msb(s) < Pow2(8 * (|s| / 8 + 1))
  {
    hide Pow2, Msb;
    Pow2Monotone(|s|, 8 * (|s| / 8 + 1));
  }

  /** Bits, lowest first, in whole bytes. */
  function WholeBytes(s: seq<bit>): (bytes: seq<u8>)
    ensures |bytes| == (|s| + 7) / 8
  {
    LittleBytes(Lsb(s), (|s| + 7) / 8)
  }

  lemma WholeBytesRead(s: seq<bit>, rest: seq<u8>)
    ensures |s| <= 8 * |WholeBytes(s) + rest| && Upward(WholeBytes(s) + rest, 0)[..|s|] == s
  {
    hide Pow2, Lsb, Field, LittleEndian, LittleBytes, Upward;
    var n, k, data := |s|, (|s| + 7) / 8, WholeBytes(s) + rest;
    Pow2Monotone(n, 8 * k);
    LittleBytesRead(Lsb(s), k);
    LittleEndianIsField(data, 0, k);
    assert data[0..k] == WholeBytes(s);
    FieldSplit(data, 0, n, 8 * k - n);
    DivModUnique(Lsb(s), Pow2(n), 0, Lsb(s));
    DivModUnique(Lsb(s), Pow2(n), Field(data, n, 8 * k - n), Field(data, 0, n));
    UpwardValue(data, 0, n);
    LsbInjective(Upward(data, 0)[..n], s);
  }

  // ----- described tables

  datatype Distribution = Distribution(ps: seq<i16>, log: nat)

  /** What a description can spell. */
  ghost predicate Describable(d: Distribution, maxSymbol: nat, maxLog: nat)
  {
    && 5 <= d.log <= maxLog && maxLog <= MAX_TABLE_LOG && |d.ps| <= maxSymbol + 1 && maxSymbol < MAX_SYMBOLS
    && FseDescription.Proper(d.ps, Pow2(d.log))
  }

  ghost function DescriptionBytes(d: Distribution, maxSymbol: nat, maxLog: nat): seq<u8>
    requires Describable(d, maxSymbol, maxLog)
  {
    WholeBytes(FseDescription.Describe(d.ps, d.log))
  }

  /** A described table reads back in front of anything else, and it can spell each of its symbols. */
  lemma DescribedReads(d: Distribution, maxSymbol: nat, maxLog: nat, rest: seq<u8>)
    requires Describable(d, maxSymbol, maxLog) && rest != []
    ensures Buildable(d.ps, d.log) && Tiled(TableOf(d.ps, d.log)) && Built(d.ps, d.log) == Some(TableOf(d.ps, d.log))
    ensures FseDescription.DescriptionOf(DescriptionBytes(d, maxSymbol, maxLog) + rest, maxSymbol, maxLog)
            == Ok(FseDescription.Description(d.ps, d.log, |FseDescription.Describe(d.ps, d.log)|))
  {
    hide FseDescription.Describe, Upward, WholeBytes, Built, FseDescription.DescriptionOf, Pow2, Entries, Buildable,
        Tiled;
    var s := FseDescription.Describe(d.ps, d.log);
    var input := WholeBytes(s) + rest;
    WholeBytesRead(s, rest);
    var bits := Upward(input, 0);
    assert |bits| > |s|;
    assert bits == s + bits[|s|..];
    FseDescription.DescriptionRoundTrip(d.ps, d.log, input, bits[|s|..], maxSymbol, maxLog);
    BuiltIsTiled(d.ps, d.log);
  }
}
