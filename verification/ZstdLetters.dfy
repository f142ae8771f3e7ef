/** The literals section, written (RFC 8878 section 3.1.1.3.1): the partner of
    the reader in zstd-zero/src/lib.rs lines 917-994. All four kinds of literals,
    in every size format. */
module ZstdLetters {
  import opened Numbers
  import opened Results
  import opened ZstdBits
  import opened ZstdHistory
  import opened HuffmanTable
  import opened HuffmanWriter
  import opened ZstdLiterals
  import opened ZstdHeaders
  import HuffmanCode
  import HuffmanDescription

  /** Literals as they are written: plainly, as one byte repeated, or under a Huffman code. The first two have a
      header of `size` bytes; the format of the third chooses the header and the number of streams. */
  datatype Letters =
    | Plain(bytes: seq<u8>, size: nat)
    | Same(byte: u8, count: nat, size: nat)
    | Spelled(tree: Tree, symbols: seq<u8>, format: nat)

  function TextOf(l: Letters): seq<u8>
  {
    match l case Plain(bytes, _) => bytes case Same(byte, count, _) => Run(byte, count)
        case Spelled(_, symbols, _) => symbols
  }

  /** One more than the largest number of literals in a header of this size. */
  function Room(size: nat): nat
  {
    if size == 1 then 32 else if size == 2 then 0x1000 else if size == 3 then 0x10_0000 else 0
  }

  ghost predicate ValidLetters(l: Letters, code: CodeView)
  {
    match l
    case Plain(bytes, size) => |bytes| < Room(size)
    case Same(_, count, size) => count < Room(size)
    case Spelled(tree, symbols, format) =>
      && format < 4 && ValidTree(tree, code) && Sayable(CodeOf(tree, code), symbols)
      && (format > 0 ==> Jumpable(CodeOf(tree, code), symbols))
      && |symbols| < Pow2(CodedHeader(format).1)
          && |SpelledBody(tree, symbols, format, code)| < Pow2(CodedHeader(format).1)
  }

  /** The description of the code, and one or four streams of symbols. */
  ghost function SpelledBody(tree: Tree, symbols: seq<u8>, format: nat, code: CodeView): seq<u8>
    requires ValidTree(tree, code) && Sayable(CodeOf(tree, code), symbols)
    requires format > 0 ==> Jumpable(CodeOf(tree, code), symbols)
  {
    TreeBytes(tree, code)
    + if format == 0 then OneStream(CodeOf(tree, code), symbols) else FourStreams(CodeOf(tree, code), symbols)
  }

  function KindOf(tree: Tree): nat
  {
    if tree.Kept? then 3 else 2
  }

  /** The number that a header of plain literals spells. */
  function PlainValue(kind: nat, count: nat, size: nat): nat
    requires size > 0
  {
    kind + if size == 1 then 8 * count else 4 * (2 * size - 3) + 16 * count
  }

  function PlainFront(kind: nat, count: nat, size: nat): (front: seq<u8>)
    requires size > 0
    ensures |front| == size
  {
    LittleBytes(PlainValue(kind, count, size), size)
  }

  function CodedValue(kind: nat, format: nat, regenerated: nat, compressed: nat): nat
  {
    kind + 4 * format + 16 * regenerated + Pow2(4 + CodedHeader(format).1) * compressed
  }

  ghost function LetterBytes(l: Letters, code: CodeView): seq<u8>
    requires ValidLetters(l, code)
  {
    match l
    case Plain(bytes, size) => PlainFront(0, |bytes|, size) + bytes
    case Same(byte, count, size) => PlainFront(1, count, size) + [byte]
    case Spelled(tree, symbols, format) =>
      var body := SpelledBody(tree, symbols, format, code);
      LittleBytes(CodedValue(KindOf(tree), format, |symbols|, |body|), CodedHeader(format).0) + body
  }

  /** The code that literals leave behind. */
  ghost function CodeAfter(l: Letters, code: CodeView): CodeView
    requires ValidLetters(l, code)
  {
    match l case Spelled(tree, _, _) => CodeOf(tree, code) case _ => code
  }

  /** A header, and what is in front of and behind its end. */
  lemma FrontReads(value: nat, n: nat, body: seq<u8>, rest: seq<u8>)
    requires 0 < n && value < Pow2(8 * n)
    ensures
      var input := LittleBytes(value, n) + body + rest;
      && |input| == n + |body| + |rest| && input[0] == value % 256 && LittleEndian(input[..n]) == value
      && input[n..n + |body|] == body && (body != [] ==> input[n] == body[0])
  {
    hide LittleEndian, Pow2;
    var input := LittleBytes(value, n) + body + rest;
    LittleBytesRead(value, n);
    assert input[..n] == LittleBytes(value, n);
    assert input[0] == LittleBytes(value, n)[0];
  }

  /** Literals read back, whatever follows, exactly if there is room for them. */
  lemma LettersRead(l: Letters, rest: seq<u8>, code: CodeView, space: nat, limit: nat)
    requires WellFormed(code) && ValidLetters(l, code)
    ensures LiteralsOf(LetterBytes(l, code) + rest, code, space, limit) ==
      match EnsureSpace(|TextOf(l)|, space, limit)
      case Err(e) => Err(e)
      case Ok(_) => Ok(Section(TextOf(l), |LetterBytes(l, code)|, CodeAfter(l, code)))
  {
    hide LittleBytes, LittleEndian, CodedLiterals, PlainLiterals, SpelledBody, ValidTree, Sayable, Jumpable,
        WellFormed, PlainFront;
    match l
    case Plain(bytes, size) => PlainLetters(0, |bytes|, size, bytes, rest, code, space, limit);
    case Same(byte, count, size) => PlainLetters(1, count, size, [byte], rest, code, space, limit);
    case Spelled(_, _, _) => SpelledLetters(l, rest, code, space, limit);
  }

  lemma PlainLetters(kind: nat, count: nat, size: nat, body: seq<u8>, rest: seq<u8>, code: CodeView, space: nat,
      limit: nat)
    requires kind < 2 && count < Room(size) && |body| == (if kind == 0 then count else 1)
    ensures
      var input := PlainFront(kind, count, size) + body + rest;
      && input != [] && input[0] % 4 == kind
      && PlainLiterals(input, code, space, limit) ==
           match EnsureSpace(count, space, limit)
           case Err(e) => Err(e)
           case Ok(_) => Ok(Section(if kind == 0 then body else Run(body[0], count), size + |body|, code))
  {
    hide LittleBytes, LittleEndian, Pow2, PlainValue, PlainLiterals;
    var value := PlainValue(kind, count, size);
    PlainValueParts(kind, count, size, value);
    FrontReads(value, size, body, rest);
    PlainHeader(LittleBytes(value, size) + body + rest, kind, count, size, value, code, space, limit);
  }

  lemma PlainValueParts(kind: nat, count: nat, size: nat, value: nat)
    requires kind < 2 && count < Room(size) && value == PlainValue(kind, count, size)
    ensures value < Pow2(8 * size) && value % 256 % 4 == kind
    ensures value % 256 / 4 % 4 == 1 <==> size == 2
    ensures value % 256 / 4 % 4 == 3 <==> size == 3
    ensures value / (if size == 1 then 8 else 16) == count
  {
    hide Pow2;
    Pow2Values();
    Pow2Add(16, 8);
    if size == 1 {
      SmallFront(kind, count, value);
    } else {
      LargeFront(kind, 2 * size - 3, count, value);
    }
  }

  lemma SmallFront(kind: nat, count: nat, value: nat)
    requires kind < 2 && value == kind + 8 * count
    ensures value % 256 % 4 == kind && value % 256 / 4 % 4 % 2 == 0 && value / 8 == count
  {
    assert value % 256 == kind + 8 * (count % 32) by {
      DivModUnique(value, 256, count / 32, kind + 8 * (count % 32));
    }
    assert value % 256 / 4 == 2 * (count % 32);
  }

  lemma LargeFront(kind: nat, format: nat, count: nat, value: nat)
    requires kind < 4 && format < 4 && value == kind + 4 * format + 16 * count
    ensures value % 256 % 4 == kind && value % 256 / 4 % 4 == format && value / 16 == count
  {
    assert value % 256 == kind + 4 * format + 16 * (count % 16) by {
      DivModUnique(value, 256, count / 16, kind + 4 * format + 16 * (count % 16));
    }
    assert value % 256 / 4 == format + 4 * (count % 16);
  }

  lemma PlainHeader(input: seq<u8>, kind: nat, n: nat, size: nat, value: nat, code: CodeView, space: nat, limit: nat)
    requires kind < 2 && 1 <= size <= 3 && |input| >= size + (if kind == 0 then n else 1)
    requires value % 256 % 4 == kind && (value % 256 / 4 % 4 == 1 <==> size == 2)
        && (value % 256 / 4 % 4 == 3 <==> size == 3)
    requires value / (if size == 1 then 8 else 16) == n
    requires input[0] == value % 256 && LittleEndian(input[..size]) == value
    ensures input[0] % 4 == kind
    ensures PlainLiterals(input, code, space, limit) ==
      match EnsureSpace(n, space, limit)
      case Err(e) => Err(e)
      case Ok(_) =>
        Ok(if kind == 0 then Section(input[size..size + n], size + n, code)
            else Section(Run(input[size], n), size + 1, code))
  {
    hide LittleEndian;
  }

  lemma SpelledLetters(l: Letters, rest: seq<u8>, code: CodeView, space: nat, limit: nat)
    requires WellFormed(code) && l.Spelled? && ValidLetters(l, code)
    ensures
      var bytes := LetterBytes(l, code);
      && |bytes| > 0 && 2 <= bytes[0] % 4
      && CodedLiterals(bytes + rest, code, space, limit) ==
           match EnsureSpace(|l.symbols|, space, limit)
           case Err(e) => Err(e)
           case Ok(_) => Ok(Section(l.symbols, |bytes|, CodeOf(l.tree, code)))
  {
    hide LittleBytes, LittleEndian, SpelledBody, ValidTree, Sayable, Jumpable, ZstdLiterals.Tree, StrictDecode,
        DecodeFour, WellFormed, Pow2, CodedValue, CodeOf;
    var Spelled(tree, symbols, format) := l;
    var body := SpelledBody(tree, symbols, format, code);
    var value := CodedValue(KindOf(tree), format, |symbols|, |body|);
    CodedValueParts(KindOf(tree), format, |symbols|, |body|, value);
    FrontReads(value, CodedHeader(format).0, body, rest);
    BodyReads(tree, symbols, format, code);
  }

  /** The fields of a header: kind, format, and the two sizes. */
  lemma CodedValueParts(kind: nat, format: nat, regenerated: nat, compressed: nat, value: nat)
    requires kind < 4 && format < 4 && value == CodedValue(kind, format, regenerated, compressed)
    requires regenerated < Pow2(CodedHeader(format).1) && compressed < Pow2(CodedHeader(format).1)
    ensures
      var (header, bits) := CodedHeader(format);
      && 3 <= header && value < Pow2(8 * header) && value % 256 % 4 == kind && value % 256 / 4 % 4 == format
      && value / 16 % Pow2(bits) == regenerated && value / Pow2(4 + bits) % Pow2(bits) == compressed
  {
    hide Pow2;
    var (header, bits) := CodedHeader(format);
    var low := kind + 4 * format + 16 * regenerated;
    Pow2Values();
    Pow2Add(4, bits);
    Pow2Add(4 + bits, bits);
    MulAssociative(16, Pow2(bits), compressed);
    LargeFront(kind, format, regenerated + Pow2(bits) * compressed, value);
    TwoFields(regenerated, compressed, Pow2(bits), Pow2(bits));
    TwoFields(low, compressed, Pow2(4 + bits), Pow2(bits));
  }

  /** Two fields of a number: the low one is below p, the high one below q. */
  lemma TwoFields(low: nat, high: nat, p: nat, q: nat)
    requires low < p && high < q
    ensures low + p * high < p * q && (low + p * high) % p == low && (low + p * high) / p % q == high
  {
    DivModUnique(low + p * high, p, high, low);
    MulMonotone(high + 1, q, p);
    MulDistributive(p, high, 1);
  }

  /** The code in force, and its symbols. */
  lemma BodyReads(tree: Tree, symbols: seq<u8>, format: nat, code: CodeView)
    requires WellFormed(code) && ValidTree(tree, code) && Sayable(CodeOf(tree, code), symbols)
    requires format > 0 ==> Jumpable(CodeOf(tree, code), symbols)
    ensures
      match ZstdLiterals.Tree(SpelledBody(tree, symbols, format, code), code, !tree.Kept?)
      case Err(_) => false
      case Ok((current, streams)) =>
        && current == CodeOf(tree, code)
        && (format == 0 ==> StrictDecode(current, streams, |symbols|) == Ok(symbols))
        && (format > 0 ==> DecodeFour(current, streams, |symbols|) == Ok(symbols))
  {
    hide TreeBytes, OneStream, FourStreams, StrictDecode, DecodeFour, HuffmanDescription.TreeOf,
        HuffmanCode.Acceptable, Sayable, Jumpable, BuiltCode, WellFormed, Squeezable, SqueezedBytes;
    var current := CodeOf(tree, code);
    var streams := if format == 0 then OneStream(current, symbols) else FourStreams(current, symbols);
    var body, front := SpelledBody(tree, symbols, format, code), TreeBytes(tree, code);
    assert body == front + streams && body[|front|..] == streams;
    if tree.Kept? {
      NoTree(code);
      assert [] + streams == streams;
    } else {
      TreeReads(tree, code, streams);
    }
    if format == 0 {
      OneStreamReads(current, symbols);
    } else {
      FourStreamsRead(current, symbols);
    }
  }

  lemma NoTree(code: CodeView)
    requires ValidTree(Kept, code)
    ensures TreeBytes(Kept, code) == []
  {
  }
}
