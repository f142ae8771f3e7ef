# Verified model of oci-zero

oci-zero is a set of bounded-memory Rust building blocks for OCI registries.
This project models its decoding and protocol cores in Dafny and proves what
their tests, their documentation and the formats they implement promise. The
modules follow the source files:

| source | modules |
|---|---|
| `zstd-zero/src/bitstream.rs` | `ZstdBits` |
| `zstd-zero/src/fse.rs` | `FseSpread`, `FseTableSpec`, `FseTable`, `FseCoding`, `FseDescription` |
| `zstd-zero/src/huffman.rs` | `HuffmanCode`, `HuffmanTable`, `HuffmanDescription`, `HuffmanWriter` |
| `zstd-zero/src/lib.rs` | `ZstdHistory`, `ZstdSequences`, `SequenceCoding`, `ZstdLiterals`, `ZstdBlock`, `ZstdStream`, `ZstdMachine`, `ZstdDecoder`, `ZstdFrames`, `ZstdHeaders`, `ZstdPacking`, `ZstdLetters`, `ZstdEncoding`, `ZstdRoundTrip` |
| `src/tar.rs` | `TarErrors`, `TarHeader`, `TarPath`, `TarPax`, `TarWriter`, `TarExtractor`, `TarArchive`, `TarParser`, `TarRoundTrip` |
| `src/json.rs` | `Utf8Text`, `JsonText`, `JsonGrammar`, `JsonTrees`, `JsonRfc`, `JsonParser`, `JsonValues` |
| `src/layer.rs`, `src/digest.rs` | `OciLayer` |
| `src/server.rs`, `src/buffer.rs` | `RegistryListing`, `RegistryPages`, `RegistryJson` |

`Numbers`, `Results`, `Counting`, `Concatenation` and `AsciiText` are shared. Verify everything
with `dafny verify dfyconfig.toml`.

Where the source changes things step by step, so does the model: the bit
readers, the tables, the history ring, the decoder, the tar writer, extractor
and parser, the JSON cursor, the verifiers, the layer applier and the listing
writer are classes or methods over arrays, with the source's loops. Each is
proved against a function on plain values (bit strings, byte strings, the
unbounded output of a frame, a parser state), and the promises are proved of
those functions.

## Main results

1. **Fragmentation does not matter to the Zstandard decoder.** `DecodeFrames`
   decodes a whole stream in one go. However a stream is cut, pushing the
   fragments and finishing delivers the same bytes and the same verdict
   (`DecodeFragments`); neither operation ever reports a stall. The proof is a
   refinement: every step of the resumable decoder, over its ring buffer and
   its collecting buffers, keeps the outcome of the stream for every
   continuation of the input (`ZstdMachine`).
2. **The ring is LZ77 over an unbounded output.** Sequences executed on the
   wrapping history append what a textbook executor appends, overlapping
   matches included; pending bytes are never overwritten; the checksum sees
   exactly the bytes that are delivered; an accepted frame has its declared
   size and matches its checksum.
3. **The entropy tables are codes.** FSE spreading is a permutation and the
   next-state intervals of a symbol tile the state space, so the errors on the
   way cannot occur; Huffman tables are complete canonical prefix codes, and
   strict decoding is the inverse of spelling with code words. Descriptions of
   tables read back what they spell, with one exact exception.
4. **Written frames decode.** Frames are written from stored, repeated and
   compressed blocks: literals of all four kinds in every size format, in one
   stream or four; Huffman codes with direct, FSE-compressed or kept weights;
   sequences under predefined, single-code, described or kept tables. Each
   frame decodes to exactly what its blocks stand for (`FrameRoundTrip`), so
   every content has a stream that decodes to it. In the other direction an
   accepted stream is a sequence of complete frames.
5. **Tar round trip.** Whatever the writer has emitted, in any fragments, the
   extractor finds the first file of a path byte for byte, or reports that
   there is none. The layer parser speaks its event grammar on every input,
   with normalized paths, and never reports an invalid state; its events and
   verdict do not depend on how the archive is cut. An archive of the writer
   parses into exactly its files.
6. **JSON.** The validator accepts exactly the documents of RFC 8259 that are
   at most 64 levels deep and in which no surrogate stands alone. What it has
   accepted parses again from its own bytes at every level, so the lazy
   iterators yield exactly the members and no error, and decoding never leaves
   UTF-8.
7. **Layers.** Unless the sink refuses something, a layer is committed if and
   only if its bytes are the genuine encoding of a complete archive; every
   failure after the beginning is followed by exactly one abort.
8. **Pagination.** For every store and page size, a client that follows the
   Link headers gets through if and only if each page fits the buffer and each
   name that becomes a cursor reads back; pages of one name or more have then
   shown every name of the unsorted store exactly once, in order, and otherwise
   the client has every page up to the first that fails. A client reads exactly the names of a page from the
   bytes of its body.

## Where promises need a condition

- FSE spreading works for table logs up to 9 exactly if the log is neither 1
  nor 3: there the stride is a multiple of the table size and every symbol is
  written to slot 0 (`FseTableSpec.StrideDecides`, with the concrete
  distribution of `FseTableSpec.DegenerateExample`). On those two logs a
  distribution still builds if and only if it leaves at most one slot below the
  low-probability symbols, or gives symbol 0 a count
  (`FseTableSpec.BuildableExactly`). Inside the crate the log of such a table
  is 5 or more, so this is not reachable there.
- The FSE description reader takes a full-width code before it gives one bit
  back, so a description that ends in a short code needs one more bit behind
  it. It is rejected if and only if its last probability is "less than one"
  and the input ends there (`FseDescription.DescriptionRoundTrip`, with the
  bytes `00 3e` of `FseDescription.LackingExample`).
- Weights can be spelled under an FSE table if and only if each has a slot and
  the last but one has a slot that asks for bits: the two alternating states
  stop nowhere else (`HuffmanWriter.SpellableExactly`).
- A cursor reads back if and only if the name is UTF-8 and has at most 256
  bytes (`RegistryPages.LinkRoundTrip`, with the 257 letters of
  `RegistryPages.LongName`). Only the names that end a page with something
  behind it become cursors, so a crawl meets a bad request exactly if one of
  those does not read back (`RegistryPages.Crawl`).
- RFC 8259 allows escapes of lone surrogates. The validator, as its own tests
  ask, accepts a document of the RFC if and only if it is not too deep and no
  surrogate in it stands alone (`JsonRfc.DocumentDecided`, with the string
  `"\ud800"` of `JsonRfc.LoneSurrogate`).
- A marker's path is normalized before `.wh.` is stripped, and the path that is
  left need not be normal: `.wh...` leaves `..`, and `.wh..` below a directory
  leaves the directory followed by `/.` (`TarPath.MarkerLeavesRoot`,
  `TarPath.MarkerNamesDirectory`). The path is normal if and only if what is
  left of the name is not `..`, and is `.` only at the top
  (`TarPath.WhiteoutIsNormal`). In every run the whiteouts' directories are
  normal, and so are the paths of opaque markers, of entries and of the targets
  of hard links (`TarArchive.RunFollowsGrammar`).

## Model

| member | source | states |
|---|---|---|
| `ZstdBits.ExtractIsField` | zstd-zero/src/bitstream.rs:86-92 | Copying the covering bytes into a zeroed eight-byte word, shifting and masking yields exactly the number whose binary digits are the requested bits, for every start and every count up to 32. |
| `ZstdBits.BackwardBits.Open` | zstd-zero/src/bitstream.rs:9-19 | A backward reader opens exactly when the last byte holds an end marker, and then delivers the bits below the marker, highest first. |
| `ZstdBits.BackwardBits.Read` | zstd-zero/src/bitstream.rs:25-32 | A read of k bits succeeds exactly when k is at most 32 and at most what is left; it returns the k leading bits, most significant first, and leaves the others. |
| `ZstdBits.BackwardBits.PeekPadded` | zstd-zero/src/bitstream.rs:34-39 | A peek sees the next bits as if the stream went on with zeros. |
| `ZstdBits.BackwardBits.Consume` | zstd-zero/src/bitstream.rs:41-48 | Consuming drops exactly k bits, or fails and changes nothing if fewer are left. |
| `ZstdBits.ReadsCompose` | zstd-zero/src/bitstream.rs:25-32 | Reading k and then m bits is reading k + m bits, for k + m up to 32. |
| `ZstdBits.ForwardBits.Read` | zstd-zero/src/bitstream.rs:65-73 | A forward read returns the next bits least significant first and advances the position by exactly their number, or fails and keeps it. |
| `ZstdBits.ForwardBits.Rewind` | zstd-zero/src/bitstream.rs:75-83 | Rewinding gives back exactly the last k bits; it fails exactly if k exceeds the position. |
| `FseSpread.StrideShape` | zstd-zero/src/fse.rs:139-140 | The stride is odd for every table log from 1 to 9 except 1 and 3, where it is a multiple of the table size. |
| `FseSpread.VisitsPermute` | zstd-zero/src/fse.rs:139-155 | With an odd stride one round of the walk visits every slot below `high` exactly once. |
| `FseSpread.OrbitReturns` | zstd-zero/src/fse.rs:152-160 | After as many strides as the table has slots the walk is back at slot 0. |
| `FseSpread.WalkBudget` | zstd-zero/src/fse.rs:147-156 | As long as slots are missing the walk has not come round, so the inner loop ends and the range error cannot occur. |
| `FseSpread.WalkEnds` | zstd-zero/src/fse.rs:153-160 | When every slot is taken the walk stands on slot 0 again, so the final position error cannot occur. |
| `FseSpread.StuckAtZero` | zstd-zero/src/fse.rs:139-156 | For table logs 1 and 3 the walk never leaves slot 0. |
| `FseSpread.CountsAreNorms` | zstd-zero/src/fse.rs:127-156 | What is placed at the top and what is spread name each symbol, together, exactly as often as its normalized count. |
| `FseTableSpec.SlotCount` | zstd-zero/src/fse.rs:98-160 | Every symbol gets exactly its normalized count of slots. |
| `FseTableSpec.AlwaysBuildable` | zstd-zero/src/fse.rs:161-174 | With an odd stride every distribution that sums to the table size builds: no slot's symbol is without a count. |
| `FseTableSpec.BuildableExactly` | zstd-zero/src/fse.rs:98-187 | Distribution by distribution, what builds: on logs 1 and 3 exactly those that leave at most one slot below the low-probability symbols or give symbol 0 a count, and all others on the other logs. |
| `FseTableSpec.StrideDecides` | zstd-zero/src/fse.rs:98-187 | Every distribution that sums to the table size builds if and only if the table log is neither 1 nor 3. |
| `FseTableSpec.DegenerateExample` | zstd-zero/src/fse.rs:139-174 | For table logs 1 and 3 the distribution [0, size] sums to the table size and yet does not build: a slot is left to a symbol without a count. |
| `FseTableSpec.NextStatesTile` | zstd-zero/src/fse.rs:161-187 | For each symbol and each state exactly one of the symbol's slots has a next-state interval that holds the state. |
| `FseTableSpec.UpdateStaysInside` | zstd-zero/src/fse.rs:58-73 | Whatever bits are read, the next state of a built table is inside the table, and no slot asks for more bits than the table log. |
| `FseTable.BuiltIffNormalized` | zstd-zero/src/fse.rs:98-187 | For every table log but 1 and 3 the guards at the top are the only reason to reject: a table is built if and only if there are 1 to 256 counts that sum to its size. |
| `FseTable.Table.BuildRle` | zstd-zero/src/fse.rs:75-83 | The table of a single symbol that reads no bits. |
| `FseTable.Table.PlaceLows` | zstd-zero/src/fse.rs:129-137 | Low-probability symbols fill the table from its top, in symbol order; every other slot is cleared. |
| `FseTable.Table.PlaceOne` | zstd-zero/src/fse.rs:147-155 | One turn of the spreading loop: the slot is free, the symbol is written to it, and the walk ends on the next free position. |
| `FseTable.Table.SpreadSymbols` | zstd-zero/src/fse.rs:139-160 | The spreading loops never fail and leave exactly the specified symbol in every slot. |
| `FseTable.Table.AssignStates` | zstd-zero/src/fse.rs:161-182 | The state loop fails exactly if a slot's symbol has no count, and otherwise writes the specified baseline and width to every slot. |
| `FseTable.Table.BuildInPlace` | zstd-zero/src/fse.rs:98-187 | The in-place construction builds exactly the table the distribution describes, fails exactly if it describes none, and, for every table log but 1 and 3, leaves the old table alone when it fails. |
| `FseTable.Table.Build` | zstd-zero/src/fse.rs:85-96 | The same from a distribution that must survive, in a workspace that has to be large enough. |
| `FseTable.Table.EntryOf` | zstd-zero/src/fse.rs:68-73 | A state is looked up exactly if it is inside the table. |
| `FseTable.Table.Update` | zstd-zero/src/fse.rs:58-66 | The next state is the slot's baseline plus the bits its width asks for; a failed read consumes nothing. |
| `FseCoding.SlotsAreCounts` | zstd-zero/src/fse.rs:161-187 | The symbols that a built table can decode are exactly those with a count. |
| `FseCoding.BuiltIsTiled` | zstd-zero/src/fse.rs:161-187 | In a built table every symbol with a slot can be decoded before every state. |
| `SequenceCoding.SequencesHaveACode` | zstd-zero/src/lib.rs:688-735 | With tables whose intervals tile, every list of sequences whose codes have slots is spelled by some initial states and some bit string, whatever follows it: reading loses nothing. |
| `FseDescription.CodeSound` | zstd-zero/src/fse.rs:218-232 | Whatever the bits are, the variable-width code yields a value in 0..=remaining, and the bits consumed are that value's code word. |
| `FseDescription.CodeComplete` | zstd-zero/src/fse.rs:218-232 | Every value in range has a code word that reads back as that value; the only failure is a short word with not one bit behind it. |
| `FseDescription.RunRoundTrip` | zstd-zero/src/fse.rs:238-246 | Every number of zeros that fits the alphabet has repeat flags that read back as that number. |
| `FseDescription.CountsSum` | zstd-zero/src/fse.rs:214-252 | The slots used never exceed the table, and when the loop stops they are exactly the table. |
| `FseDescription.CountsRoundTrip` | zstd-zero/src/fse.rs:214-252 | Every distribution that does not end in a zero is read back from the bits that spell it, if and only if it does not end in "less than one" with not a bit behind it; in that case reading fails with an invalid bit stream. |
| `FseDescription.DescriptionBuilds` | zstd-zero/src/fse.rs:250-253 | A description that reads completely always builds a table: the later checks are dead. |
| `FseDescription.DescriptionRoundTrip` | zstd-zero/src/fse.rs:189-255 | Describing a distribution and reading the description gives the distribution, its table log, the exact number of bits, and a table, except that a final "less than one" at the very end of the input is an invalid bit stream. |
| `FseDescription.LackingExample` | zstd-zero/src/fse.rs:218-232 | The two bytes 00 3e spell the distribution [-1, 30, -1] of 32 slots to their last bit, and are rejected. |
| `FseDescription.TakeCode` | zstd-zero/src/fse.rs:218-232 | The method with its one-bit rewind computes the code specified on bit strings. |
| `FseDescription.TakeCounts` | zstd-zero/src/fse.rs:205-252 | The reading loop fills the scratch with exactly the specified distribution, and zeros behind it. |
| `FseDescription.ReadDescription` | zstd-zero/src/fse.rs:189-255 | Reading a description builds exactly the table it describes and reports its length in bytes; a failure leaves the old table alone. |
| `HuffmanCode.AcceptableIsComplete` | zstd-zero/src/huffman.rs:157-206 | Every accepted weight list gives code lengths whose words exactly fill the table (the Kraft sum is full), so the `starts[0] != used` error cannot occur. |
| `HuffmanCode.RankStep` | zstd-zero/src/huffman.rs:199-203 | What the rank loop adds up is the number of slots of all longer codes. |
| `HuffmanCode.CanonicalOrder` | zstd-zero/src/huffman.rs:208-226 | Longer codes come first and equal lengths follow in symbol order: one run ends before the next begins. |
| `HuffmanCode.OwnerUnique` | zstd-zero/src/huffman.rs:208-226 | No slot belongs to two symbols. |
| `HuffmanCode.OwnerExists` | zstd-zero/src/huffman.rs:208-226 | Every slot belongs to a symbol. |
| `HuffmanCode.RunAligned` | zstd-zero/src/huffman.rs:208-226 | Every run starts at a multiple of its width, so it is the set of slots that begin with one code word. |
| `HuffmanCode.PeekPrefix` | zstd-zero/src/huffman.rs:94-110 | The zero padding of a peek does not reach the bits that are there. |
| `HuffmanCode.OwnerIsNext` | zstd-zero/src/huffman.rs:94-110 | The symbol of a peeked slot is i if and only if the next bits are i's code word. |
| `HuffmanCode.DecodeInvertsSpell` | zstd-zero/src/huffman.rs:84-116 | Strict decoding of n symbols succeeds with s if and only if the bits are exactly the code words of s, one after the other. |
| `HuffmanCode.DecodeFailure` | zstd-zero/src/huffman.rs:84-116 | Strict decoding fails only with an invalid bit stream, and otherwise yields exactly n symbols. |
| `HuffmanTable.CountRanks` | zstd-zero/src/huffman.rs:195-198 | The rank array counts the codes of each length. |
| `HuffmanTable.RankStarts` | zstd-zero/src/huffman.rs:199-203 | The start array holds the first slot of each length. |
| `HuffmanTable.Table.FillTable` | zstd-zero/src/huffman.rs:186-229 | The table is filled slot by slot with the owners of the canonical code; the checks on the way never fail. |
| `HuffmanTable.Table.Build` | zstd-zero/src/huffman.rs:157-229 | A table is built if and only if the weights are acceptable, and is then the table of the canonical code. |
| `HuffmanTable.Table.DecodeInto` | zstd-zero/src/huffman.rs:84-116 | Decoding with the table is decoding with the code, for every input; nothing outside the requested range is written. |
| `HuffmanTable.Table.DecodeFourInto` | zstd-zero/src/huffman.rs:118-155 | Four streams behind a jump table decode to the concatenation of their segments. |
| `HuffmanDescription.WeightStatesStayInside` | zstd-zero/src/huffman.rs:245-264 | With a built table the alternating states never leave it: the only error is too many weights. |
| `HuffmanDescription.DecompressWeights` | zstd-zero/src/huffman.rs:232-265 | The alternating loop writes exactly the specified weight list. |
| `HuffmanDescription.ReadTree` | zstd-zero/src/huffman.rs:45-82 | Reading a tree description builds exactly the code of the weights it spells, or fails for one of the specified reasons, and reports its length. |
| `ZstdHistory.ByteByByteIsPeriodic` | zstd-zero/src/lib.rs:796-806 | Copying byte by byte from `offset` back, even into its own output, appends the last `offset` bytes over and over. |
| `ZstdHistory.BehindIsWhereItBegan` | zstd-zero/src/lib.rs:594-618 | Going back over the bytes of a block from the ring position leads to where the block began. |
| `ZstdHistory.History.WriteByte` | zstd-zero/src/lib.rs:809-830 | A byte written to the wrapping ring is a byte appended to the frame's output, of which the ring keeps the end. |
| `ZstdHistory.History.CopyFrom` | zstd-zero/src/lib.rs:796-806 | A match copied inside the ring appends what LZ77 appends to the unbounded output, for every offset up to min(frame output, window) and every ring at least as long as the window; any other offset is an error. |
| `ZstdSequences.LiteralLengthCodesTile` | zstd-zero/src/lib.rs:1082-1089 | The ranges of the literal length codes follow one another without gap or overlap. |
| `ZstdSequences.MatchLengthCodesTile` | zstd-zero/src/lib.rs:1090-1098 | So do the ranges of the match length codes, from 3 on. |
| `ZstdSequences.ResolveKeepsPositive` | zstd-zero/src/lib.rs:1040-1064 | The three repeat offsets always stay at least 1, and the resolved offset is the most recent. |
| `ZstdSequences.ResolveOffset` | zstd-zero/src/lib.rs:1040-1064 | The in-place rotation computes the offset and the history of RFC 8878 section 3.1.1.5; a failure changes nothing. |
| `ZstdSequences.InterleaveIsReadThenExecute` | zstd-zero/src/lib.rs:697-736 | Reading and executing sequence by sequence succeeds exactly if reading them all and then executing them all does, with the same output and the same bits left. |
| `ZstdSequences.ExecuteAllGrows` | zstd-zero/src/lib.rs:697-746 | Executing sequences only appends, uses no literal twice, and keeps the repeat offsets positive. |
| `ZstdSequences.RunSequences` | zstd-zero/src/lib.rs:697-736 | The loop over the ring, the repeat offsets and the bit reader is the interleaving over the unbounded output. |
| `ZstdSequences.RunSection` | zstd-zero/src/lib.rs:674-746 | A sequences section, with its initial states, its check for left-over bits and its last literals, appends exactly what the executor over the unbounded output appends. |
| `ZstdLiterals.DecodeLiterals` | zstd-zero/src/lib.rs:917-994 | The literals section yields exactly the literals its bytes stand for, where they end, and the Huffman code in force afterwards. |
| `ZstdBlock.PredefinedTablesBuild` | zstd-zero/src/lib.rs:1099-1112 | The three predefined distributions build at their table logs. |
| `ZstdBlock.BuildSequenceTable` | zstd-zero/src/lib.rs:1016-1038 | Each of the four table modes leaves exactly the specified table, or fails for the specified reason. |
| `ZstdBlock.DescriptionFits` | zstd-zero/src/lib.rs:642-673 | A table description never reaches beyond its input, so the position stays inside the section. |
| `ZstdBlock.BlockAppends` | zstd-zero/src/lib.rs:594-618 | Whatever a block does, it only appends to the frame's output and keeps the repeat offsets positive. |
| `ZstdStream.InspectFrame` | zstd-zero/src/lib.rs:832-896 | A header that is not complete asks for more bytes than there are and at most 18; a complete one lies within its input. |
| `ZstdStream.InspectDecided` | zstd-zero/src/lib.rs:832-896 | A header is decided by its own bytes: nothing behind it changes the answer. |
| `ZstdStream.FilledHeaderIsTight` | zstd-zero/src/lib.rs:474-502 | Collecting the bytes that were asked for never collects a byte that does not belong to the header. |
| `ZstdMachine.Feed` | zstd-zero/src/lib.rs:197-203 | Collecting the bytes a state asks for, in any portions, keeps the outcome of the whole stream. |
| `ZstdMachine.Decided` | zstd-zero/src/lib.rs:474-568 | A state that has its bytes decides as the one-shot decoder does at that place. |
| `ZstdMachine.Step` | zstd-zero/src/lib.rs:436-472 | A decision keeps the outcome of the stream for every continuation of the input, or rejects every continuation with its error. |
| `ZstdMachine.AtEndOfInput` | zstd-zero/src/lib.rs:379-390 | A decoder that waits for bytes accepts the end of input only between frames, and not before the first. |
| `ZstdMachine.NextFragment` | zstd-zero/src/lib.rs:319-354 | What two fragments do, one after the other, their concatenation does. |
| `ZstdDecoder.Decoder.RecordOutput` | zstd-zero/src/lib.rs:758-769 | The checksum is fed exactly the bytes of the block, in order, however the ring wraps, and the same bytes become pending. |
| `ZstdDecoder.RingSlices` | zstd-zero/src/lib.rs:758-769 | The stretch of the ring that a block wrote, cut where the ring wraps, is the end of the frame's output. |
| `ZstdDecoder.Decoder.DecodeCompressed` | zstd-zero/src/lib.rs:620-747 | A compressed block leaves the ring, the repeat offsets and the tables exactly as the specification over the unbounded output says. |
| `ZstdDecoder.Decoder.ProcessBlock` | zstd-zero/src/lib.rs:594-618 | A block that succeeds has appended its bytes and made exactly those pending; no more than the block limit, so none is overwritten before it is delivered. |
| `ZstdDecoder.Decoder.ReadBlockHeader` | zstd-zero/src/lib.rs:504-526 | The block header state, as a transition of the machine. |
| `ZstdDecoder.Decoder.ReadBlock` | zstd-zero/src/lib.rs:528-549 | The block payload state, as a transition of the machine: bytes collected, the block decoded, the next state by the header's last flag and the frame's checksum flag. |
| `ZstdDecoder.Decoder.ReadChecksum` | zstd-zero/src/lib.rs:551-568 | The checksum state, as a transition of the machine. |
| `ZstdDecoder.Decoder.BeginFrame` | zstd-zero/src/lib.rs:570-588 | A frame starts with fresh offsets, no tables and an empty output, unless it wants a dictionary or a longer history. |
| `ZstdDecoder.Decoder.ReadHeader` | zstd-zero/src/lib.rs:474-502 | The header state, as a transition of the machine. |
| `ZstdDecoder.Decoder.Advance` | zstd-zero/src/lib.rs:436-472 | One state's worth of work keeps the outcome of the stream and makes progress: it consumes input, or moves to a state nearer to needing some. |
| `ZstdDecoder.Decoder.PendingOutput` | zstd-zero/src/lib.rs:427-434 | What is handed out is the front of what is pending; the rest stays pending. |
| `ZstdDecoder.Decoder.DecodeInner` | zstd-zero/src/lib.rs:413-425 | One visible step: the bytes delivered, the new state and the rest of the input have together the outcome of the old state and the whole input. |
| `ZstdDecoder.Decoder.Decode` | zstd-zero/src/lib.rs:289-312 | The same for the public step; an error poisons the decoder, and a poisoned decoder only reports that it is. |
| `ZstdDecoder.CallShrinks` | zstd-zero/src/lib.rs:319-377 | Every step but a wait leaves less input, a state nearer to needing some, or less to deliver. |
| `ZstdDecoder.Decoder.Push` | zstd-zero/src/lib.rs:319-354 | A fragment is consumed completely; what is delivered and the new state have the outcome of the old state; an error is the stream's own, never a stall. |
| `ZstdDecoder.Decoder.FinishJudges` | zstd-zero/src/lib.rs:379-390 | The final check is exactly what is left of the outcome. |
| `ZstdDecoder.Decoder.FinishWith` | zstd-zero/src/lib.rs:356-377 | Draining delivers exactly the rest of the output, and the verdict is that of the whole stream, never a stall. |
| `ZstdDecoder.Decoder.Reset` | zstd-zero/src/lib.rs:392-400 | A decoder can be used again, even after an error, as if it were new. |
| `ZstdDecoder.Decoder.DecodeFragments` | zstd-zero/src/lib.rs:319-377 | For every stream and every way to cut it, the delivered bytes and the verdict are those of the one-shot decoder on the whole stream: fragmentation does not matter. |
| `ZstdFrames.AcceptedFrame` | zstd-zero/src/lib.rs:504-568 | An accepted frame has delivered exactly its content, of its declared size, matching its checksum. |
| `ZstdFrames.AcceptedStream` | zstd-zero/src/lib.rs:413-472 | An accepted stream is a sequence of complete frames, at least one, and delivers the contents of its frames, each once, in order. |
| `ZstdHeaders.HeaderReadsBack` | zstd-zero/src/lib.rs:832-896 | Every frame header that can be written, with any flags and fields, reads back as those fields, whatever follows it. |
| `ZstdHeaders.HeaderIsWritten` | zstd-zero/src/lib.rs:832-896 | Nothing else is accepted as a frame header: the bytes are those written from the fields that were read. |
| `ZstdHeaders.BlockHeaderRoundTrip` | zstd-zero/src/lib.rs:898-915 | Three bytes read as a block header if and only if they are written from it and its size respects the limit. |
| `ZstdPacking.PackedPayload` | zstd-zero/src/bitstream.rs:9-32 | Every bit string, put below an end marker, is what a backward reader delivers. |
| `ZstdPacking.DescribedReads` | zstd-zero/src/fse.rs:189-255 | A described table, in whole bytes in front of anything else, reads back and can spell each of its symbols. |
| `HuffmanWriter.WeightsHaveACode` | zstd-zero/src/huffman.rs:245-264 | Two alternating states can spell every list of 2 to 255 weights that have slots, if the last but one can stop the alternation. |
| `HuffmanWriter.SpellableExactly` | zstd-zero/src/huffman.rs:245-264 | No other weights can be spelled: a list of weights has a bit string if and only if it meets that condition. |
| `HuffmanWriter.SqueezedRead` | zstd-zero/src/huffman.rs:232-265 | Weights under any described FSE code read back, if the last but one does not own the whole table. |
| `HuffmanWriter.TreeReads` | zstd-zero/src/huffman.rs:45-82 | Every written description of a code, direct or compressed, reads back as its weights and its length. |
| `HuffmanWriter.FourStreamsRead` | zstd-zero/src/huffman.rs:118-155 | Four streams behind a jump table read back as the symbols they were cut from. |
| `ZstdLetters.LettersRead` | zstd-zero/src/lib.rs:917-994 | Literals of every kind and size format, written plainly, as a repeated byte, or in one or four streams under a described or a kept Huffman code, read back; if there is no room for them they fail with exactly the error for that. |
| `ZstdEncoding.TableReads` | zstd-zero/src/lib.rs:1016-1038 | Every sequence table that a block can ask for, predefined, of a single code, described, or kept from the block before, reads back as that table, and can spell each of its codes. |
| `ZstdEncoding.SectionReads` | zstd-zero/src/lib.rs:674-746 | The bit stream written for a list of sequences executes exactly those sequences and then writes the last literals. |
| `ZstdEncoding.BlockReads` | zstd-zero/src/lib.rs:594-747 | A stored, repeated or compressed block, with any kind of literals and any mode of the three tables, succeeds exactly if what it stands for can be executed, and then has exactly that effect. |
| `ZstdRoundTrip.BlocksDecode` | zstd-zero/src/lib.rs:504-568 | Blocks written one after another, with their checksum, decode to the bytes they stand for, and decoding goes on behind them. |
| `ZstdRoundTrip.PlayedIsSteady` | zstd-zero/src/lib.rs:1016-1038 | Every table that a block can keep from the one before can spell each of its codes. |
| `ZstdRoundTrip.FrameRoundTrip` | zstd-zero/src/lib.rs:413-618 | Every frame of such blocks that the buffers have room for decodes to exactly the content its blocks stand for, and decoding goes on behind it. |
| `ZstdRoundTrip.EveryContentHasAStream` | zstd-zero/src/lib.rs:413-618 | With at least 1024 bytes of history and block buffer, every content has a stream, with checksum, that decodes to exactly that content and is accepted. |
| `TarHeader.OctalRoundTrip` | src/tar.rs:149-162 | A number that fits n octal digits is the value of its n digits. |
| `TarHeader.WriteOctal` | src/tar.rs:149-162 | Writing succeeds exactly if the digits suffice, writes them and a NUL, and touches nothing else. |
| `TarHeader.ParseOctalField` | src/tar.rs:346-364 | The one-pass reader accepts exactly spaces, octal digits of at most 64 bits, and terminators, and yields their value. |
| `TarHeader.OctalFieldRoundTrip` | src/tar.rs:149-162 | A written field, behind any terminators, reads back as its number. |
| `TarHeader.ParseNumberField` | src/tar.rs:334-344 | The reader yields the octal or the big-endian value of the field, or nothing if it exceeds 64 bits. |
| `TarPath.JoinInvertsSplit` | src/tar.rs:917-947 | Splitting a path at its slashes and joining it again gives the path. |
| `TarPath.SplitInvertsJoin` | src/tar.rs:917-947 | Joining components without slashes and splitting again gives the components. |
| `TarPath.NormalizedIsNormal` | src/tar.rs:917-947 | A normalized path is in normal form: it has no empty, "." or ".." component unless it is ".", and normalizing it changes nothing. |
| `TarPath.NormalForm` | src/tar.rs:917-947 | A path is in normal form if and only if it is "." or has only components that are not empty, ".", or "..", and no NUL. |
| `TarPath.CopyWithin` | src/tar.rs:939-940 | Moving a component towards the front is right even if source and destination overlap. |
| `TarPath.NormalizePath` | src/tar.rs:917-947 | The in-place compaction yields the components other than the empty one and ".", joined, or "." if none is left; it fails exactly on an empty path, a leading slash, a NUL or a ".." component; nothing behind the path is touched. |
| `TarPath.ValidateSymbolicLink` | src/tar.rs:949-964 | A link is accepted exactly if it is not empty, not absolute, has no NUL, and never leaves the root on its way, followed from the directory of the entry. |
| `TarPath.WhiteoutNames` | src/tar.rs:966-988 | A marker names its own sibling, or, if it is the opaque marker, its own directory. |
| `TarPath.WhiteoutIsNormal` | src/tar.rs:966-988 | The path that a marker removes is normal if and only if what follows ".wh." is not "..", and is "." only at the top. |
| `TarPath.MarkerLeavesRoot` | src/tar.rs:966-988 | The marker ".wh..." is a normal path, and what it removes is "..", which is not. |
| `TarPath.MarkerNamesDirectory` | src/tar.rs:966-988 | The marker ".wh.." below a directory is a normal path, and what it removes is the directory followed by "/.", which is not. |
| `TarPath.WhiteoutKeepsDirectories` | src/tar.rs:966-988 | A marker at a normal path keeps the directories normal, so that only the last component can fail; an opaque marker is about a normal path. |
| `TarPath.TakeWhiteout` | src/tar.rs:966-988 | The in-place edit turns the marker's path into exactly the path it is about, and any other path is left alone. |
| `TarWriter.BuildHeader` | src/tar.rs:44-69 | The header written field by field is the ustar header, whose checksum is the sum over the header with blank checksum. |
| `TarWriter.TarWriter.BeginFile` | src/tar.rs:29-75 | A file begins exactly if the writer is ready, the path is acceptable and the numbers fit; otherwise nothing changes. |
| `TarWriter.TarWriter.WriteFileData` | src/tar.rs:77-94 | Data is passed on exactly if it fits the announced size. |
| `TarWriter.TarWriter.EndFile` | src/tar.rs:96-112 | A file ends exactly if all of it was written, and is then a member of the archive. |
| `TarWriter.ImageIsBlocks` | src/tar.rs:96-112 | Written members take a header block each and behind it as few whole blocks as hold the content. |
| `TarWriter.TarWriter.Finish` | src/tar.rs:114-124 | What has been emitted in all is the image of the members in order, and two zero blocks; its length is the whole blocks these need. |
| `TarExtractor.RunConcat` | src/tar.rs:231-273 | Chunking cannot matter to the extraction. |
| `TarExtractor.EntryExtractor.ConsumeHeader` | src/tar.rs:294-311 | A full header selects, skips or ends exactly as specified, or fails and leaves the state alone. |
| `TarExtractor.EntryExtractor.Push` | src/tar.rs:231-273 | A fragment leaves the extractor where its bytes, one by one, lead, and hands out exactly the selected bytes. |
| `TarExtractor.FirstContentIsFirst` | src/tar.rs:294-311 | The content looked for is that of the first member with the path. |
| `TarExtractor.HeaderReadsBack` | src/tar.rs:44-69 | A written header passes its checksum, is no end marker, and reads back as the member's path, size and type. |
| `TarExtractor.RunMembers` | src/tar.rs:231-311 | After any list of members the extractor holds exactly the content of the first one with the path. |
| `TarExtractor.RoundTrip` | src/tar.rs:29-124 | For every list of files the writer accepts, the extractor outputs the content of the first file of the path and finishes well, or reports that there is none. |
| `TarExtractor.ExtractWritten` | src/tar.rs:231-292 | The same for the objects: whatever a finished writer has emitted, in any fragments. |
| `TarPax.RecordReadsBack` | src/tar.rs:1014-1038 | A record whose length counts itself reads back, whatever its value holds and whatever follows. |
| `TarPax.ValidatePax` | src/tar.rs:990-995 | The loop accepts exactly what parses record by record. |
| `TarPax.PaxOverrides` | src/tar.rs:997-1012 | The loop collects size, path and link path, each at most once. |
| `TarPax.ValidatedOverrides` | src/tar.rs:997-1012 | On a validated header the only error left is a repeated key. |
| `TarArchive.RunConcat` | src/tar.rs:545-598 | Chunking cannot matter to the layer parser. |
| `TarArchive.StepIsGood` | src/tar.rs:545-598 | Every step keeps the parser's invariant, speaks the event grammar with clean paths, and never ends in an invalid state. |
| `TarArchive.RunFollowsGrammar` | src/tar.rs:545-794 | Every run, of any bytes, emits begin, data of exactly the entry's size, end, or whiteouts; paths of entries, hard link targets and opaque directories are normalized, and so is a whiteout's path but for a last component ".." or "."; the invalid state is unreachable. |
| `TarArchive.AcceptedArchive` | src/tar.rs:600-614 | An archive that is accepted is a sequence of complete entries and whiteouts. |
| `TarParser.RunChunk` | src/tar.rs:554-577 | A fragment of content does at once what its bytes do one by one. |
| `TarParser.Archive.CompleteContent` | src/tar.rs:764-794 | The end of an entry's or extension's content, as specified. |
| `TarParser.Archive.StoreContent` | src/tar.rs:554-577 | Content is passed on, or kept in the buffer it belongs to as far as it fits. |
| `TarParser.Archive.OpenExtension` | src/tar.rs:734-762 | GNU long names and PAX headers are recognised and prepared for, exactly by their type flags. |
| `TarParser.Archive.ResolvePath` | src/tar.rs:648-654 | The path is the PAX one, else the GNU one, else the header's, trimmed and normalized in the buffer. |
| `TarParser.Archive.ResolveLink` | src/tar.rs:656-678 | The link target, by the same precedence; normalized for hard links and checked for symbolic ones. |
| `TarParser.Archive.AnnounceEntry` | src/tar.rs:680-731 | A marker becomes a whiteout event, everything else a begin event with the header's metadata. |
| `TarParser.Archive.ConsumeHeader` | src/tar.rs:616-732 | A full header does exactly what the byte-by-byte machine does with it. |
| `TarParser.Archive.Push` | src/tar.rs:545-598 | A fragment emits the events of its bytes, up to how data is cut, and leaves the parser where they lead. |
| `TarParser.ExplodeFollows` | src/tar.rs:545-598 | How data is cut does not matter to the event grammar. |
| `TarParser.ParseFragments` | src/tar.rs:545-614 | For every archive and every way to cut it, events (up to how data is cut) and verdict are those of the whole; the events follow the grammar, and an accepted archive ends between entries. |
| `TarRoundTrip.MetadataReadsBack` | src/tar.rs:44-69 | The mode of a written header, its zero owner, group and time, and its empty link name read back. |
| `TarRoundTrip.ContentRuns` | src/tar.rs:554-588 | Content and padding of an open entry emit exactly its bytes and its end. |
| `TarRoundTrip.MemberRuns` | src/tar.rs:545-732 | A written file parses into its entry with normalized path, size and mode, its data and its end, or into a whiteout if its name says so; it is an error exactly if its path does not fit or a marker has content. |
| `TarRoundTrip.WrittenArchiveParses` | src/tar.rs:29-124 | An archive of the writer is accepted by the layer parser if and only if every path fits and every marker is empty, and then its events are exactly those of its files, in order. |
| `TarRoundTrip.WhiteoutLeavesArchive` | src/tar.rs:680-700 | An archive with the one empty file ".wh..." is written, accepted, and tells the sink to remove "..". |
| `JsonGrammar.ValueIsLocal` | src/json.rs:286-313 | Whether a value is accepted, and where it ends, is decided by its own bytes. |
| `JsonGrammar.ValueIsShallower` | src/json.rs:286-313 | What is accepted at some depth is accepted, with the same end, at every smaller depth. |
| `JsonTrees.TreeAccepted` | src/json.rs:286-313 | The text of every syntax tree whose surrogates are in pairs and that is not too deep is accepted, up to its last byte and no further. |
| `JsonTrees.TreeOf` | src/json.rs:286-313 | Every accepted value is the text of such a tree. |
| `JsonTrees.DocumentGrammar` | src/json.rs:99-110 | A text is accepted if and only if it is the text of such a tree, at most 64 levels deep, with space around it. |
| `JsonTrees.DocumentAccepted` | src/json.rs:99-110 | The value found in such a text is exactly the tree's own text. |
| `JsonRfc.TreeDecided` | src/json.rs:286-386 | A syntax tree of RFC 8259, in which any four hexadecimal digits make an escape, is accepted if and only if it is not too deep and no surrogate in it stands alone; then to its last byte and no further. |
| `JsonRfc.DocumentDecided` | src/json.rs:99-110 | A document of RFC 8259 is accepted if and only if it is at most 64 levels deep and no surrogate in it stands alone. |
| `JsonRfc.AcceptedIsRfc` | src/json.rs:99-110 | Nothing but a document of RFC 8259 is accepted. |
| `JsonRfc.LoneSurrogate` | src/json.rs:345-366 | The string of the one escape \ud800 is a document of RFC 8259, and is rejected as an invalid escape. |
| `Utf8Text.Utf8IsEncoding` | src/json.rs:99-100 | The byte ranges of UTF-8 accept exactly the encodings of scalar values, one after another. |
| `Utf8Text.CutAtAscii` | src/json.rs:126-135 | A text cut at an ASCII byte is UTF-8 if and only if both sides are, so the later checks of strings between quotes cannot fail. |
| `JsonParser.Whitespace` | src/json.rs:430-435 | The loop stops behind the longest run of whitespace. |
| `JsonParser.ParseNumber` | src/json.rs:389-409 | The scanner by positions takes exactly the number in front of the text. |
| `JsonParser.ReadUnicodeEscape` | src/json.rs:368-378 | Shifting in four hexadecimal digits one by one yields their number. |
| `JsonParser.ParseString` | src/json.rs:315-329 | The scanner by positions takes exactly the string in front of the text. |
| `JsonParser.Container.NextInner` | src/json.rs:245-283 | The cursor yields the next member's key and the bytes of its value, or the end of the container, and moves behind it. |
| `JsonParser.Container.Next` | src/json.rs:234-243 | After an error or the end the cursor yields nothing more. |
| `JsonParser.ParseValue` | src/json.rs:286-300 | The recursive parser over positions computes the validator's function of the text. |
| `JsonParser.ParseContainer` | src/json.rs:302-313 | So does the loop over a container's members. |
| `JsonValues.ReparsesAlone` | src/json.rs:99-124 | Whatever was accepted, at any depth and with anything behind it, is accepted again from its own bytes at the outermost depth. |
| `JsonValues.ParseDocument` | src/json.rs:99-110 | Bytes that are not UTF-8 are rejected; a document yields the bytes of its value, which parse again on their own, or the validator's error. |
| `JsonValues.Items` | src/json.rs:175-213 | Iterating over a value of an accepted document yields exactly its members in order, never an error, and every member's value can be iterated again. |
| `JsonValues.DecodedFits` | src/json.rs:20-42 | Decoding never needs more bytes than the encoded string has, even with surrogate pairs. |
| `JsonValues.ValidDecodes` | src/json.rs:20-42 | A string of an accepted document decodes to its characters; the only error left is a buffer that is too small. |
| `JsonValues.DecodesToUtf8` | src/json.rs:20-42 | What UTF-8 decodes to is UTF-8. |
| `JsonValues.DecodeInto` | src/json.rs:20-42 | The loop writes exactly the decoded bytes to the start of the buffer, and the UTF-8 check at its end never fails. |
| `JsonValues.EqualsAscii` | src/json.rs:44-52 | Comparing character by character agrees with decoding and then comparing. |
| `JsonValues.Get` | src/json.rs:157-169 | A field is found if and only if exactly one member has that name; two are an error, none is nothing. |
| `OciLayer.Verifier.Update` | src/digest.rs:77-84 | The hash has seen exactly the bytes that were passed on; more than 64 bits of size are an error that changes nothing. |
| `OciLayer.DisciplineOf` | src/layer.rs:254-316 | A log that keeps the transaction's discipline begins at most once successfully, has nothing after a successful commit or an abort, and answers every refusal with an abort at once. |
| `OciLayer.FinishedEncodes` | src/layer.rs:123-133 | A decoder that waits may stop if and only if its input encodes something, and then that is what has come out. |
| `OciLayer.DecodedIsPrefix` | src/layer.rs:375-406 | What has come out so far is the front of whatever the input turns out to encode. |
| `OciLayer.VerifiedDecoder.Take` | src/layer.rs:375-383 | A fragment is hashed and counted before anything is decoded; an overflow means that nothing that begins so can be genuine. |
| `OciLayer.VerifiedDecoder.Step` | src/layer.rs:385-394 | One step keeps hashes, counts and decoder in agreement; it fails only if nothing that begins with these bytes is genuine; a step that consumes nothing brings the decoder nearer to wanting input. |
| `OciLayer.VerifiedDecoder.CheckedIsGenuine` | src/layer.rs:416-440 | The final checks pass if and only if the input is the genuine encoding of some content, and that content is what has come out. |
| `OciLayer.BrokenStays` | src/layer.rs:263-284 | Nothing that follows repairs an archive in which an error has occurred. |
| `OciLayer.CompleteIsApplied` | src/layer.rs:286-316 | When the archive's own check passes, the sink has accepted all the events of a complete archive. |
| `OciLayer.LayerApplier.OfferAll` | src/layer.rs:277-283 | Events reach the sink in order, up to the first that it refuses. |
| `OciLayer.LayerApplier.Feed` | src/layer.rs:375-406 | A fragment is decoded and parsed completely, or the sink has refused an event, or no layer that begins with these bytes is good; the decoder never stalls. |
| `OciLayer.LayerApplier.Drain` | src/layer.rs:420-433 | The same for what the decoder still holds at the end. |
| `OciLayer.LayerApplier.CheckAndCommit` | src/layer.rs:416-440 | A commit is attempted only after decoder, sizes, digests and archive have passed; if they have not, the bytes are no good layer. |
| `OciLayer.LayerApplier.Push` | src/layer.rs:263-284 | A fragment begins the transaction if necessary; every failure afterwards aborts it, exactly once, and has a reason: the sink has refused something, or no continuation is a good layer; a failed or finished applier does nothing more. |
| `OciLayer.LayerApplier.Finish` | src/layer.rs:286-316 | A finished layer is genuine and complete, and its events have all been accepted; a failure aborts the transaction and means a refusal of the sink or a bad layer. |
| `OciLayer.ApplyLayer` | src/layer.rs:254-316 | For every layer and every way to cut it: unless the sink refuses something, the layer is committed if and only if it is good. |
| `RegistryListing.SelectNext` | src/server.rs:257-265 | One pass over the unsorted store finds the least name behind the cursor, or that there is none. |
| `RegistryListing.ListsIsUnique` | src/server.rs:254-286 | There is only one ascending list of what the store holds behind a name. |
| `RegistryListing.ListingOf` | src/server.rs:254-286 | There is one. |
| `RegistryPages.BufferWriter.WriteStr` | src/buffer.rs:5-13 | Text is appended exactly if all of it fits; otherwise nothing changes. |
| `RegistryPages.ListPage` | src/server.rs:242-290 | A page holds exactly the first n names behind the cursor, as text, and links to the last of them exactly if there are more; it fails exactly if the text does not fit. |
| `RegistryPages.EscapeRoundTrip` | src/server.rs:130-142 | A percent-encoded name decodes to itself exactly if the buffer has room for it. |
| `RegistryPages.EscapedIsPlain` | src/server.rs:130-142 | An encoded name holds nothing that has a meaning in a query or ends the link. |
| `RegistryPages.Pagination` | src/server.rs:323-360 | The loop accepts exactly the specified queries, each parameter at most once and with a cursor that is UTF-8 and fits, and yields the size and the cursor. |
| `RegistryPages.LinkRoundTrip` | src/server.rs:130-142 | The query of a link asks for the same size behind the same name if and only if the name is UTF-8 of at most 256 bytes; otherwise it is rejected. |
| `RegistryPages.LongName` | src/server.rs:323-360 | The link to a name of 257 letters is a bad request. |
| `RegistryPages.HeaderLeads` | src/server.rs:130-142 | The query between the question mark and the closing bracket of a Link header is the link's query, whatever the name is. |
| `RegistryPages.ServeListing` | src/server.rs:226-291 | A request yields the page its query asks for, a bad request for a malformed query or cursor, or the error of a buffer that is too small. |
| `RegistryPages.Crawl` | src/server.rs:226-291 | Following the Link headers from the first page on stops, and gets through if and only if every page fits the buffer and every name that becomes a cursor is UTF-8 of at most 256 bytes; pages of one name or more then hold every distinct name of the store exactly once, in ascending order; otherwise all pages before the first that fails have been served, and the bad request or the overflow is that page's. |
| `RegistryPages.RoomIsEnough` | src/server.rs:239-253 | Room for the whole list on one page, and names that are all UTF-8 of at most 256 bytes, are enough for every page and cursor of every size. |
| `RegistryJson.ListingIsJson` | src/server.rs:243-282 | Every listing body is a JSON document that this crate's own parser accepts. |
| `RegistryJson.NamesReadBack` | src/server.rs:276-282 | The strings in the list of a page's document are exactly its names. |
| `RegistryJson.ReadListing` | src/server.rs:243-282 | From the bytes of a body, the document, its field and its items, without an error on the way, are exactly the names of the page. |

## Left out

- Lenient Huffman mode (`strict_literal_bitstream = false`): only strict decoding is modelled.
- XXH64 and SHA-256 are parameters: functions of the bytes that the running hash has seen.
- Output callbacks and sinks that carry their own error values: a callback that fails is not modelled for the Zstandard decoder, the tar writer and the extractor; a layer sink may refuse any call, but its error value is not kept.
- Callbacks are not called from inside a push: a push returns the bytes or events that it would have passed on, in order.
- The gzip decoder and the gzip branch of the layer decoder: the inflate step belongs to another crate.
- `ZstdDecoder.Decoder.constructor`: takes the four parts of the FSE entries as separate arrays of sufficient length; the source cuts one buffer and reports a buffer that is too short.
- `ZstdDecoder.Decoder.Push` and `ZstdDecoder.Decoder.FinishWith`, like `OciLayer.LayerApplier.Feed`: the branches that report a stalled decoder are assertions that they cannot be taken.
- Window sizes are compared as unbounded numbers, which is what a 64-bit `usize` does; a 32-bit target would report `WindowTooLarge` for some of them.
- `OciLayer.VerifiedDecoder.Step`: the count of decompressed bytes is unbounded; the source's count is 64 bits wide.
- `TarParser.Archive.ConsumeHeader`: the header's length is forgotten before the header is used, in the source afterwards; this differs only after an error.
- `TarParser.Archive.Push`: what the layer parser does after it has reported an error is not modelled, since the layer applier stops feeding it.
- `JsonParser.Container.NextInner` and `JsonParser.Container.Next`: keys and strings are bytes between quotes; the source checks again that they are UTF-8, which cannot fail in a document that is (`Utf8Text.CutAtAscii`).
- `RegistryPages.Crawl`: asks for a path without a question mark, so that the query is what stands behind the first one.
- `JsonValues.Get` compares names as ASCII, as the source does; converting numbers (`Value::u64`) and formatting errors would add only easy members.
- `VerifiedEntryExtractor`: it joins the verified decoder and the entry extractor, which are both modelled.
- The digest text format, references, registry requests, manifests, metadata, media types and HTTP responses: character classes, header look-ups and input or output that would add only easy members.
- The store of the registry is a sequence of names; whether a repository exists, HEAD requests and response headers are not modelled.
- The asynchronous pull walk, TLS, credential helpers, the examples, the web page and the tools.
