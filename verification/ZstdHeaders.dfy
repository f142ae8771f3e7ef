/** The headers of frames and blocks, written (RFC 8878 sections 3.1.1.1 and
    3.1.1.2): the partner of the readers in zstd-zero/src/lib.rs lines 832-915
    and 996-1014. Every header reads back, and nothing else is a header. */
module ZstdHeaders {
  import opened Numbers
  import opened Results
  import opened ZstdBits
  import opened ZstdBlock
  import opened ZstdStream

  // ----- numbers as bytes

  function LittleBytes(value: nat, n: nat): (bytes: seq<u8>)
    ensures |bytes| == n
  {
    if n == 0 then [] else [value % 256] + LittleBytes(value / 256, n - 1)
  }

  lemma {:induction false} LittleBytesRead(value: nat, n: nat)
    requires value < Pow2(8 * n)
    ensures LittleEndian(LittleBytes(value, n)) == value
  {
    if n > 0 {
      EightMore(n);
      LittleBytesRead(value / 256, n - 1);
      assert LittleBytes(value, n)[1..] == LittleBytes(value / 256, n - 1);
    }
  }

  lemma EightMore(n: nat)
    requires n > 0
    ensures Pow2(8 * n) == 256 * Pow2(8 * (n - 1))
  {
    hide Pow2;
    Pow2Add(8, 8 * (n - 1));
    Pow2Values();
  }

  /** Every byte string is the number that it stands for. */
  lemma {:induction false} BytesAreLittle(bytes: seq<u8>)
    ensures LittleEndian(bytes) < Pow2(8 * |bytes|)
    ensures LittleBytes(LittleEndian(bytes), |bytes|) == bytes
  {
    if bytes != [] {
      EightMore(|bytes|);
      BytesAreLittle(bytes[1..]);
      assert LittleEndian(bytes) % 256 == bytes[0] && LittleEndian(bytes) / 256 == LittleEndian(bytes[1..]);
      assert bytes == [bytes[0]] + bytes[1..];
    }
  }

  // ----- frame headers

  /** The fields of a frame header as they are written: the two flags choose the widths of the last two. */
  datatype Form = Form(single: bool, window: u8, contentFlag: nat, content: nat, dictionaryFlag: nat, dictionary: nat,
                       checksum: bool, unused: bool)

  function Descriptor(f: Form): (descriptor: nat)
    requires f.contentFlag < 4 && f.dictionaryFlag < 4
    ensures descriptor < 256
  {
    64 * f.contentFlag + (if f.single then 32 else 0) + (if f.unused then 16 else 0) + (if f.checksum then 4 else 0)
        + f.dictionaryFlag
  }

  predicate ValidForm(f: Form)
  {
    && f.contentFlag < 4 && f.dictionaryFlag < 4
    && f.dictionary < Pow2(8 * DictionarySize(Descriptor(f)))
    && f.content < Pow2(8 * ContentSizeBytes(Descriptor(f)))
  }

  function WriteHeader(f: Form): (bytes: seq<u8>)
    requires ValidForm(f)
    ensures |bytes| == HeaderSize(Descriptor(f))
  {
    DescriptorBits(f);
    LittleBytes(ZSTD_MAGIC, 4) + [Descriptor(f)] + (if f.single then [] else [f.window])
    + LittleBytes(f.dictionary, DictionarySize(Descriptor(f))) + LittleBytes(f.content, ContentSizeBytes(Descriptor(f)))
  }

  /** What the fields mean. Two-byte content sizes start at 256, and a single segment is its own window. */
  function Meant(f: Form): FrameHeader
    requires ValidForm(f)
  {
    var bytes := ContentSizeBytes(Descriptor(f));
    var content := f.content + if bytes == 2 then 256 else 0;
    FrameHeader(if f.single then content else WindowOf(f.window), if bytes == 0 then None else Some(content),
        f.dictionary, f.checksum)
  }

  lemma DescriptorBits(f: Form)
    requires f.contentFlag < 4 && f.dictionaryFlag < 4
    ensures
      var d := Descriptor(f);
      && d / 32 % 2 == (if f.single then 1 else 0) && d / 8 % 2 == 0 && d / 4 % 2 == (if f.checksum then 1 else 0)
      && d % 4 == f.dictionaryFlag && d / 64 == f.contentFlag && d / 16 % 2 == (if f.unused then 1 else 0)
  {
    var single, unused, checksum := if f.single then 1 else 0, if f.unused then 1 else 0, if f.checksum then 1 else 0;
    LowBits(4 * f.contentFlag + 2 * single + unused, checksum, f.dictionaryFlag, Descriptor(f));
    HighBits(f.contentFlag, single, unused);
  }

  lemma LowBits(high: nat, checksum: nat, flag: nat, d: nat)
    requires checksum < 2 && flag < 4 && d == 16 * high + 4 * checksum + flag
    ensures d % 4 == flag && d / 4 % 2 == checksum && d / 8 % 2 == 0
    ensures d / 16 == high && d / 32 == high / 2 && d / 64 == high / 4
  {
    assert d / 4 == 4 * high + checksum && d / 8 == 2 * high;
  }

  lemma HighBits(flag: nat, single: nat, unused: nat)
    requires single < 2 && unused < 2
    ensures
      var high := 4 * flag + 2 * single + unused;
      high % 2 == unused && high / 2 % 2 == single && high / 4 == flag
  {
    assert (4 * flag + 2 * single + unused) / 2 == 2 * flag + single;
  }

  /** Every header reads back, whatever follows. */
  lemma HeaderReadsBack(f: Form, tail: seq<u8>)
    requires ValidForm(f)
    ensures InspectFrame(WriteHeader(f) + tail) == Ok(Complete(Zstandard(Meant(f)), |WriteHeader(f)|))
  {
    hide LittleEndian, LittleBytes, Pow2, WindowOf, DictionarySize, ContentSizeBytes, Descriptor;
    DescriptorBits(f);
    var d := Descriptor(f);
    var input := WriteHeader(f) + tail;
    var dictionary, content :=
        LittleBytes(f.dictionary, DictionarySize(d)), LittleBytes(f.content, ContentSizeBytes(d));
    var at: nat := if f.single then 5 else 6;
    MagicReads();
    LittleBytesRead(f.dictionary, DictionarySize(d));
    LittleBytesRead(f.content, ContentSizeBytes(d));
    FourParts(LittleBytes(ZSTD_MAGIC, 4), [d] + (if f.single then [] else [f.window]), dictionary, content, tail);
    assert WriteHeader(f)
        == LittleBytes(ZSTD_MAGIC, 4) + ([d] + (if f.single then [] else [f.window])) + dictionary + content;
    assert input[4..at] == [d] + (if f.single then [] else [f.window]);
    assert input[4] == d && (!f.single ==> input[5] == f.window);
  }

  lemma MagicReads()
    ensures LittleEndian(LittleBytes(ZSTD_MAGIC, 4)) == ZSTD_MAGIC
  {
    Pow2Values();
    LittleBytesRead(ZSTD_MAGIC, 4);
  }

  lemma FourParts(a: seq<u8>, b: seq<u8>, c: seq<u8>, d: seq<u8>, tail: seq<u8>)
    ensures
      var all := a + b + c + d + tail;
      var i, j := |a| + |b|, |a| + |b| + |c|;
      && |all| >= j + |d| && all[..|a|] == a && all[|a|..i] == b && all[i..j] == c && all[j..j + |d|] == d
  {
  }

  /** Nothing else is a frame header: what is accepted has been written from some fields. */
  lemma HeaderIsWritten(input: seq<u8>) returns (f: Form)
    requires InspectFrame(input).Ok? && InspectFrame(input).value.Complete?
        && InspectFrame(input).value.header.Zstandard?
    ensures ValidForm(f) && Meant(f) == InspectFrame(input).value.header.frame
    ensures input[..InspectFrame(input).value.size] == WriteHeader(f)
  {
    hide LittleEndian, LittleBytes, Pow2, WindowOf, DictionarySize, ContentSizeBytes, Descriptor;
    var d := input[4];
    f := FormOf(input, d);
    DescriptorBits(f);
    var dictionaryAt: nat := if f.single then 5 else 6;
    var contentAt := dictionaryAt + DictionarySize(d);
    var end := contentAt + ContentSizeBytes(d);
    BytesAreLittle(input[..4]);
    BytesAreLittle(input[dictionaryAt..contentAt]);
    BytesAreLittle(input[contentAt..end]);
    Rejoin(input, 4, dictionaryAt, contentAt, end);
    assert input[4..dictionaryAt] == [d] + (if f.single then [] else [f.window]);
    assert LittleBytes(ZSTD_MAGIC, 4) + ([d] + (if f.single then [] else [f.window]))
           == LittleBytes(ZSTD_MAGIC, 4) + [d] + (if f.single then [] else [f.window]);
  }

  lemma BitsOfByte(d: nat)
    requires d < 256 && d / 8 % 2 == 0
    ensures 64 * (d / 64) + 32 * (d / 32 % 2) + 16 * (d / 16 % 2) + 4 * (d / 4 % 2) + d % 4 == d
  {
    var half, quarter := d / 4, d / 16;
    assert d / 8 == half / 2 && quarter == half / 4 && d / 32 == quarter / 2 && d / 64 == quarter / 4;
    assert quarter == 4 * (quarter / 4) + 2 * (quarter / 2 % 2) + quarter % 2;
  }

  function FormOf(input: seq<u8>, d: u8): (f: Form)
    requires |input| >= 5 && input[4] == d && |input| >= HeaderSize(d) && d / 8 % 2 == 0
    ensures f.contentFlag < 4 && f.dictionaryFlag < 4 && Descriptor(f) == d
  {
    hide DictionarySize, ContentSizeBytes, LittleEndian;
    BitsOfByte(d);
    var single := d / 32 % 2 == 1;
    var dictionaryAt: nat := if single then 5 else 6;
    var contentAt := dictionaryAt + DictionarySize(d);
    Form(single, if single then 0 else input[5], d / 64,
        LittleEndian(input[contentAt..contentAt + ContentSizeBytes(d)]),
         d % 4, LittleEndian(input[dictionaryAt..contentAt]), d / 4 % 2 == 1, d / 16 % 2 == 1)
  }

  lemma Rejoin(input: seq<u8>, a: nat, b: nat, c: nat, d: nat)
    requires a <= b <= c <= d <= |input|
    ensures input[..d] == input[..a] + input[a..b] + input[b..c] + input[c..d]
  {
  }

  // ----- block headers

  function KindCode(kind: BlockKind): nat
  {
    match kind case RawBlock => 0 case RleBlock => 1 case CompressedBlock => 2
  }

  function WriteBlockHeader(h: BlockHeader): (bytes: seq<u8>)
    ensures |bytes| == 3
  {
    LittleBytes((if h.last then 1 else 0) + 2 * KindCode(h.kind) + 8 * h.size, 3)
  }

  /** Three bytes are a block header if and only if they have been written from one that respects the limit. */
  lemma BlockHeaderRoundTrip(h: BlockHeader, bytes: seq<u8>, limit: nat)
    requires |bytes| == 3 && h.size < 0x20_0000
    ensures ParseBlockHeader(bytes, limit) == Ok(h) <==> bytes == WriteBlockHeader(h) && h.size <= limit
  {
    hide LittleEndian, LittleBytes, Pow2;
    var value := (if h.last then 1 else 0) + 2 * KindCode(h.kind) + 8 * h.size;
    ThreeBytes(bytes);
    ThreeBytes(WriteBlockHeader(h));
    LittleBytesRead(value, 3);
    BytesAreLittle(bytes);
    HeaderParts(if h.last then 1 else 0, KindCode(h.kind), h.size, LittleEndian(bytes));
    if bytes == WriteBlockHeader(h) {
      assert LittleEndian(bytes) == value;
    }
  }

  lemma HeaderParts(last: nat, kind: nat, size: nat, value: nat)
    requires last < 2 && kind < 4
    ensures value == last + 2 * kind + 8 * size <==> value % 2 == last && value / 2 % 4 == kind && value / 8 == size
  {
    var half := value / 2;
    assert value == 2 * half + value % 2 && value / 8 == half / 4 && half == 4 * (half / 4) + half % 4;
    if value == last + 2 * kind + 8 * size {
      assert value % 2 == last && half == kind + 4 * size;
    }
  }

  lemma ThreeBytes(bytes: seq<u8>)
    requires |bytes| == 3
    ensures LittleEndian(bytes) == bytes[0] as int + 256 * bytes[1] as int + 65536 * bytes[2] as int
    ensures Pow2(24) == 0x100_0000
  {
    assert bytes[1..][1..] == [bytes[2]] && bytes[1..][0] == bytes[1];
    assert LittleEndian([bytes[2]]) == bytes[2];
    Pow2Add(16, 8);
    Pow2Values();
  }

  // ----- the number of sequences

  function WriteCount(n: nat): (bytes: seq<u8>)
    requires n < 0x1_7f00
  {
    if n < 128 then [n]
    else if n < 0x7f00 then [128 + n / 256, n % 256]
    else [255, (n - 0x7f00) % 256, (n - 0x7f00) / 256]
  }

  lemma CountReadsBack(n: nat, tail: seq<u8>)
    requires n < 0x1_7f00
    ensures SequenceCount(WriteCount(n) + tail) == Ok((n, |WriteCount(n)|))
  {
  }
}
