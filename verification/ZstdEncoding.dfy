/** Blocks, written (RFC 8878 section 3.1.1.2): the partner of the decoder's
    specification in zstd-zero/src/lib.rs lines 594-747 and 1016-1038. Stored,
    repeated and compressed blocks, with all kinds of literals and all four
    modes of the sequence tables, have exactly the effect that they stand for. */
module ZstdEncoding {
  import opened Numbers
  import opened Results
  import opened ZstdErrors
  import opened ZstdBits
  import opened FseTableSpec
  import opened FseTable
  import opened FseCoding
  import opened ZstdHistory
  import opened ZstdSequences
  import opened SequenceCoding
  import opened ZstdBlock
  import opened ZstdHeaders
  import opened ZstdPacking
  import opened ZstdLetters
  import FseSpread
  import FseDescription
  import HuffmanTable
  import ZstdLiterals

  // ----- tables

  /** A predefined table, the table of a single code, one that the block describes, or the one of the block before. */
  datatype Choice = Standard | Single(code: u8) | Own(d: Distribution) | Former

  const LL := Distribution(LL_DEFAULT, 6)
  const OF := Distribution(OF_DEFAULT, 5)
  const ML := Distribution(ML_DEFAULT, 6)

  /** A predefined distribution, with the table it builds. */
  ghost predicate Predefined(d: Distribution)
  {
    && 0 < |d.ps| <= MAX_SYMBOLS && Buildable(d.ps, d.log) && Tiled(TableOf(d.ps, d.log))
    && Built(d.ps, d.log) == Some(TableOf(d.ps, d.log))
  }

  lemma PredefinedTables()
    ensures Predefined(LL) && Predefined(OF) && Predefined(ML)
    ensures |LL.ps| == 36 && |OF.ps| == 32 && |ML.ps| == 53
  {
    hide Entries, Buildable, FseSpread.Total, Tiled;
    LiteralLengthTotal();
    OffsetTotal();
    MatchLengthTotal();
    Pow2Values();
    PredefinedTable(LL);
    PredefinedTable(OF);
    PredefinedTable(ML);
  }

  lemma PredefinedTable(d: Distribution)
    requires 5 <= d.log <= 6 && 0 < |d.ps| <= MAX_SYMBOLS && FseSpread.Total(d.ps) == Pow2(d.log)
    ensures Predefined(d)
  {
    hide Entries, FseSpread.Total, Tiled, Symbols;
    AlwaysBuildable(d.ps, d.log);
    BuiltIsTiled(d.ps, d.log);
  }

  /** What a block can ask for; a former table has to be there. */
  ghost predicate ValidChoice(choice: Choice, maxSymbol: nat, maxLog: nat, current: TableView)
  {
    && (choice.Own? ==> Describable(choice.d, maxSymbol, maxLog))
    && (choice.Former? ==> current.entries != [] && Tiled(current))
  }

  function Mode(choice: Choice): (mode: nat)
    ensures mode < 4
  {
    match choice case Standard => 0 case Single(_) => 1 case Own(_) => 2 case Former => 3
  }

  ghost function ChoiceBytes(choice: Choice, maxSymbol: nat, maxLog: nat, current: TableView): seq<u8>
    requires ValidChoice(choice, maxSymbol, maxLog, current)
  {
    match choice
    case Single(code) => [code]
    case Own(d) => DescriptionBytes(d, maxSymbol, maxLog)
    case _ => []
  }

  ghost function Chosen(choice: Choice, standard: Distribution, maxLog: nat, current: TableView): TableView
    requires Predefined(standard) && ValidChoice(choice, |standard.ps| - 1, maxLog, current)
  {
    match choice
    case Standard => TableOf(standard.ps, standard.log)
    case Single(code) => RleView(code)
    case Own(d) =>
      DescribedReads(d, |standard.ps| - 1, maxLog, [0]);
      TableOf(d.ps, d.log)
    case Former => current
  }

  /** Every table that can be asked for reads back, and can spell each of its codes. */
  lemma TableReads(choice: Choice, standard: Distribution, maxLog: nat, rest: seq<u8>, current: TableView)
    requires Predefined(standard) && ValidChoice(choice, |standard.ps| - 1, maxLog, current) && rest != []
    ensures Tiled(Chosen(choice, standard, maxLog, current))
    ensures
      var bytes := ChoiceBytes(choice, |standard.ps| - 1, maxLog, current);
      SequenceTable(Mode(choice), bytes + rest, standard.ps, standard.log, maxLog, current)
      == Ok((Chosen(choice, standard, maxLog, current), |bytes|))
  {
    hide Tiled, Buildable, Entries, Built, FseDescription.DescriptionOf, FseDescription.Describe, FseDescription.Proper;
    match choice
    case Single(code) => RleIsTiled(code);
    case Own(d) => DescribedReads(d, |standard.ps| - 1, maxLog, rest);
    case _ =>
  }

  // ----- sequences

  /** Three states, and bits that spell the sequences from there. */
  ghost predicate Starts(at: Cursor, cs: seq<Coded>, t: Tables)
  {
    && at.literalLength < Pow2(t.literalLengths.log) && at.offset < Pow2(t.offsets.log)
    && at.matchLength < Pow2(t.matchLengths.log) && Spells(t, at, cs)
  }

  lemma StartExists(cs: seq<Coded>, t: Tables)
    requires TiledAll(t) && cs != [] && Codable(cs, t)
    ensures exists at :: Starts(at, cs, t)
  {
    hide Spells, Tiled, WellCoded;
    var at := SequencesHaveACode(cs, t);
    assert Starts(at, cs, t);
  }

  ghost function BitsOf(at: Cursor, t: Tables): (s: seq<bit>)
    requires at.literalLength < Pow2(t.literalLengths.log) && at.offset < Pow2(t.offsets.log)
    requires at.matchLength < Pow2(t.matchLengths.log)
  {
    MsbDigits(at.literalLength, t.literalLengths.log)
    + (MsbDigits(at.offset, t.offsets.log) + (MsbDigits(at.matchLength, t.matchLengths.log) + at.s))
  }

  ghost function SequenceBits(cs: seq<Coded>, t: Tables): (s: seq<bit>)
    requires TiledAll(t) && cs != [] && Codable(cs, t)
    ensures exists at :: Starts(at, cs, t) && s == BitsOf(at, t)
  {
    StartExists(cs, t);
    var at :| Starts(at, cs, t);
    BitsOf(at, t)
  }

  /** Executing the sequences, one after another, and then writing the last literals. */
  ghost function Executed(cs: seq<Coded>, p: Progress, setting: Setting): (r: Result<Progress, DecodeError>)
  {
    var done :- ExecuteAll(p, RawsOf(cs), setting);
    if done.used > |setting.literals| then Err(InvalidBlock)
    else
      var out :- Append(done.out, setting.literals[done.used..], setting.capacity);
      Ok(Progress(out, done.recent, |setting.literals|))
  }

  /** The same success, and the same value. */
  ghost predicate Agree<T(!new)>(a: Result<T, DecodeError>, b: Result<T, DecodeError>)
  {
    (a.Ok? <==> b.Ok?) && (a.Ok? ==> a.value == b.value)
  }

  lemma SectionReads(cs: seq<Coded>, t: Tables, p: Progress, setting: Setting)
    requires TiledAll(t) && cs != [] && Codable(cs, t)
    ensures Agree(Section(t, SequenceBits(cs, t), |cs|, p, setting), Executed(cs, p, setting))
  {
    hide Spells, Pow2, ExecuteAll, Interleave, BitsOf, RawsOf, Append, TopBits, Tiled;
    var s := SequenceBits(cs, t);
    var at: Cursor :| Starts(at, cs, t) && s == BitsOf(at, t);
    StatesRead(at, t);
    SpelledRead(at, cs, t);
    InterleaveIsReadThenExecute(t, at, |cs|, p, setting);
  }

  lemma StatesRead(at: Cursor, t: Tables)
    requires at.literalLength < Pow2(t.literalLengths.log) && at.offset < Pow2(t.offsets.log)
    requires at.matchLength < Pow2(t.matchLengths.log) && TiledAll(t)
    ensures
      var s := BitsOf(at, t);
      var s1 := s[t.literalLengths.log..];
      var s2 := s1[t.offsets.log..];
      && TopBits(s, t.literalLengths.log) == Ok(at.literalLength) && |s| >= t.literalLengths.log
      && TopBits(s1, t.offsets.log) == Ok(at.offset) && |s1| >= t.offsets.log
      && TopBits(s2, t.matchLengths.log) == Ok(at.matchLength) && |s2| >= t.matchLengths.log
      && s2[t.matchLengths.log..] == at.s
  {
    hide Pow2, MsbDigits, TopBits, Tiled;
    LogsFit(t);
    var third := MsbDigits(at.matchLength, t.matchLengths.log) + at.s;
    TopOf(at.literalLength, t.literalLengths.log, MsbDigits(at.offset, t.offsets.log) + third);
    TopOf(at.offset, t.offsets.log, third);
    TopOf(at.matchLength, t.matchLengths.log, at.s);
  }

  lemma LogsFit(t: Tables)
    requires TiledAll(t)
    ensures t.literalLengths.log <= 32 && t.offsets.log <= 32 && t.matchLengths.log <= 32
  {
  }

  lemma SpelledRead(at: Cursor, cs: seq<Coded>, tables: Tables)
    requires Spells(tables, at, cs)
    ensures ReadAll(tables, at, |cs|) == Ok((RawsOf(cs), []))
  {
    hide ReadAll, RawsOf;
    assert at.(s := at.s + []) == at;
  }

  // ----- the sequences section

  /** The tables of the three codes of a sequence. */
  datatype Choices = Choices(ll: Choice, of: Choice, ml: Choice)

  ghost predicate ValidChoices(t: Choices, current: Tables)
  {
    && ValidChoice(t.ll, 35, 9, current.literalLengths) && ValidChoice(t.of, 31, 8, current.offsets)
    && ValidChoice(t.ml, 52, 9, current.matchLengths)
  }

  ghost function TablesFor(t: Choices, current: Tables): Tables
    requires ValidChoices(t, current)
  {
    PredefinedTables();
    Tables(Chosen(t.ll, LL, 9, current.literalLengths), Chosen(t.of, OF, 8, current.offsets),
        Chosen(t.ml, ML, 9, current.matchLengths))
  }

  lemma TablesTiled(t: Choices, current: Tables)
    requires ValidChoices(t, current)
    ensures TiledAll(TablesFor(t, current))
  {
    hide Tiled, Predefined, Describable, SequenceTable, ChoiceBytes, Chosen, ValidChoice;
    PredefinedTables();
    TableReads(t.ll, LL, 9, [0], current.literalLengths);
    TableReads(t.of, OF, 8, [0], current.offsets);
    TableReads(t.ml, ML, 9, [0], current.matchLengths);
  }

  function Modes(t: Choices): (modes: u8)
    ensures modes % 4 == 0
    ensures modes / 64 == Mode(t.ll) && modes / 16 % 4 == Mode(t.of) && modes / 4 % 4 == Mode(t.ml)
  {
    hide Mode;
    64 * Mode(t.ll) + 16 * Mode(t.of) + 4 * Mode(t.ml)
  }

  /** Sequences that the chosen tables can spell. */
  ghost predicate ValidSequences(cs: seq<Coded>, t: Choices, current: Tables)
  {
    ValidChoices(t, current) && cs != [] && Codable(cs, TablesFor(t, current))
  }

  ghost function SequenceBytes(cs: seq<Coded>, t: Choices, current: Tables): (bytes: seq<u8>)
    requires ValidSequences(cs, t, current)
  {
    hide ValidChoice, TiledAll, Codable, TablesFor;
    TablesTiled(t, current);
    [Modes(t)]
    + (ChoiceBytes(t.ll, 35, 9, current.literalLengths)
       + (ChoiceBytes(t.of, 31, 8, current.offsets)
          + (ChoiceBytes(t.ml, 52, 9, current.matchLengths) + Packed(SequenceBits(cs, TablesFor(t, current))))))
  }

  lemma TablesRead(cs: seq<Coded>, t: Choices, current: Tables)
    requires ValidSequences(cs, t, current)
    ensures TiledAll(TablesFor(t, current))
    ensures
      var input := SequenceBytes(cs, t, current);
      && input != [] && input[0] % 4 == 0
      && match SequenceTables(input, current)
         case Err(_) => false
         case Ok((tables, end)) =>
           && tables == TablesFor(t, current) && end <= |input|
           && input[end..] == Packed(SequenceBits(cs, TablesFor(t, current)))
  {
    hide SequenceTables, ValidChoice, ChoiceBytes, Packed, Codable, TiledAll, TablesFor, Modes;
    TablesTiled(t, current);
    var bits := Packed(SequenceBits(cs, TablesFor(t, current)));
    PackedIsSome(SequenceBits(cs, TablesFor(t, current)));
    ThreeTablesRead(t, bits, current, ChoiceBytes(t.ll, 35, 9, current.literalLengths),
        ChoiceBytes(t.of, 31, 8, current.offsets),
                    ChoiceBytes(t.ml, 52, 9, current.matchLengths), SequenceBytes(cs, t, current));
  }

  lemma ThreeTablesRead(t: Choices, bits: seq<u8>, current: Tables, d1: seq<u8>, d2: seq<u8>, d3: seq<u8>,
      input: seq<u8>)
    requires ValidChoices(t, current) && bits != []
    requires d1 == ChoiceBytes(t.ll, 35, 9, current.literalLengths) && d2 == ChoiceBytes(t.of, 31, 8, current.offsets)
    requires d3 == ChoiceBytes(t.ml, 52, 9, current.matchLengths)
    requires input == [Modes(t)] + (d1 + (d2 + (d3 + bits)))
    ensures SequenceTables(input, current) == Ok((TablesFor(t, current), 1 + |d1| + |d2| + |d3|))
    ensures 1 + |d1| + |d2| + |d3| <= |input| && input[1 + |d1| + |d2| + |d3|..] == bits
  {
    hide Tiled, Predefined, Describable, SequenceTable, ChoiceBytes, Chosen, ValidChoice, Modes, Mode;
    PredefinedTables();
    TableReads(t.ll, LL, 9, d2 + (d3 + bits), current.literalLengths);
    TableReads(t.of, OF, 8, d3 + bits, current.offsets);
    TableReads(t.ml, ML, 9, bits, current.matchLengths);
    Behind([Modes(t)], d1, d2, d3, bits);
  }

  lemma Behind(modes: seq<u8>, d1: seq<u8>, d2: seq<u8>, d3: seq<u8>, bits: seq<u8>)
    requires |modes| == 1
    ensures
      var all := modes + (d1 + (d2 + (d3 + bits)));
      && all[1..] == d1 + (d2 + (d3 + bits)) && all[1 + |d1|..] == d2 + (d3 + bits)
      && all[1 + |d1| + |d2|..] == d3 + bits && all[1 + |d1| + |d2| + |d3|..] == bits
  {
  }

  /** What a sequences section does. */
  ghost function SequencesEffect(cs: seq<Coded>, t: Choices, literals: seq<u8>, before: Carried, bounds: Bounds)
    : Result<Carried, DecodeError>
    requires ValidChoices(t, before.tables)
  {
    var p :- Executed(cs, Progress(before.out, before.recent, 0), Setting(literals, bounds.window, bounds.capacity));
    Ok(Carried(p.out, p.recent, before.code, TablesFor(t, before.tables)))
  }

  lemma SequencesRead(cs: seq<Coded>, t: Choices, literals: seq<u8>, before: Carried, bounds: Bounds)
    requires ValidSequences(cs, t, before.tables)
    ensures Agree(Sequences(SequenceBytes(cs, t, before.tables), |cs|, literals, before, bounds),
                  SequencesEffect(cs, t, literals, before, bounds))
  {
    hide SequenceBytes, SequenceTables, Payload, Packed, Section, Executed, TablesFor, TiledAll, Codable, ValidChoice;
    TablesRead(cs, t, before.tables);
    var tables := TablesFor(t, before.tables);
    PackedPayload(SequenceBits(cs, tables));
    SectionReads(cs, tables, Progress(before.out, before.recent, 0), Setting(literals, bounds.window, bounds.capacity));
  }

  // ----- blocks

  /** A block as it is written. */
  datatype Written = Stored(bytes: seq<u8>) | Repeat(byte: u8, count: nat)
      | Compressed(letters: Letters, cs: seq<Coded>, t: Choices)

  /** A block that can be written behind what the frame carries: its code and its tables. */
  ghost predicate ValidParts(w: Written, before: Carried)
  {
    w.Compressed? ==>
      && ValidLetters(w.letters, before.code) && |w.cs| < 0x1_7f00
      && (w.cs != [] ==> ValidSequences(w.cs, w.t, before.tables))
  }

  ghost function Body(w: Written, before: Carried): seq<u8>
    requires ValidParts(w, before)
  {
    match w
    case Stored(bytes) => bytes
    case Repeat(byte, _) => [byte]
    case Compressed(letters, cs, t) =>
      LetterBytes(letters, before.code)
          + (WriteCount(|cs|) + if cs == [] then [] else SequenceBytes(cs, t, before.tables))
  }

  ghost function HeaderFor(w: Written, before: Carried, last: bool): BlockHeader
    requires ValidParts(w, before)
  {
    match w
    case Stored(bytes) => BlockHeader(last, RawBlock, |bytes|)
    case Repeat(_, count) => BlockHeader(last, RleBlock, count)
    case Compressed(_, _, _) => BlockHeader(last, CompressedBlock, |Body(w, before)|)
  }

  /** What a block does to its frame. */
  ghost function Effect(w: Written, before: Carried, bounds: Bounds): Result<Carried, DecodeError>
    requires ValidParts(w, before)
  {
    match w
    case Stored(bytes) =>
      var out :- Append(before.out, bytes, bounds.capacity);
      Ok(before.(out := out))
    case Repeat(byte, count) =>
      var out :- Append(before.out, Run(byte, count), bounds.capacity);
      Ok(before.(out := out))
    case Compressed(letters, cs, t) =>
      var _ :- ZstdLiterals.EnsureSpace(|TextOf(letters)|, bounds.literalSpace, bounds.Limit());
      var coded := before.(code := CodeAfter(letters, before.code));
      if cs == [] then
        var out :- Append(before.out, TextOf(letters), bounds.capacity);
        Ok(coded.(out := out))
      else SequencesEffect(cs, t, TextOf(letters), coded, bounds)
  }

  /** A block reads as what was written: it succeeds exactly if that does, and then with the same effect. */
  lemma BlockReads(w: Written, last: bool, before: Carried, bounds: Bounds)
    requires HuffmanTable.WellFormed(before.code) && ValidParts(w, before)
    ensures |Body(w, before)| == HeaderFor(w, before, last).PayloadSize()
    ensures Agree(BlockEffect(HeaderFor(w, before, last), Body(w, before), before, bounds), Effect(w, before, bounds))
  {
    hide SequencesEffect, SequenceBytes, Sequences, ZstdLiterals.LiteralsOf, LetterBytes, ValidLetters, ValidChoices,
        Codable, WriteCount, SequenceCount, HuffmanTable.WellFormed, TextOf, CodeAfter;
    if w.Compressed? {
      var rest := if w.cs == [] then [] else SequenceBytes(w.cs, w.t, before.tables);
      var coded := before.(code := CodeAfter(w.letters, before.code));
      LettersRead(w.letters, WriteCount(|w.cs|) + rest, before.code, bounds.literalSpace, bounds.Limit());
      CountReadsBack(|w.cs|, rest);
      CountSize(|w.cs|);
      ThreeSections(LetterBytes(w.letters, before.code), WriteCount(|w.cs|), rest);
      if w.cs != [] {
        SequencesRead(w.cs, w.t, TextOf(w.letters), coded, bounds);
      }
    }
  }

  lemma CountSize(n: nat)
    requires n < 0x1_7f00
    ensures WriteCount(n) != []
  {
  }

  lemma ThreeSections(a: seq<u8>, b: seq<u8>, c: seq<u8>)
    ensures
      var all := a + (b + c);
      all[|a|..] == b + c && all[|a| + |b|..] == c && |all| == |a| + |b| + |c|
  {
  }

  // ----- former tables

  /** Every table is missing, or can spell each of its codes. */
  ghost predicate Steady(t: Tables)
  {
    && (t.literalLengths.entries != [] ==> Tiled(t.literalLengths))
    && (t.offsets.entries != [] ==> Tiled(t.offsets)) && (t.matchLengths.entries != [] ==> Tiled(t.matchLengths))
  }

  /** No block leaves another kind of table behind. */
  lemma EffectIsSteady(w: Written, before: Carried, bounds: Bounds)
    requires ValidParts(w, before) && Steady(before.tables) && Effect(w, before, bounds).Ok?
    ensures Steady(Effect(w, before, bounds).value.tables)
  {
    hide Executed, TablesFor, ValidLetters, Codable, Tiled, Append, ValidChoice;
    if w.Compressed? && w.cs != [] {
      TablesTiled(w.t, before.tables);
    }
  }
}
