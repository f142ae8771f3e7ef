/** Executing a block's sequences (zstd-zero/src/lib.rs lines 688-747 and
    1040-1098, RFC 8878 sections 3.1.1.3.2.1, 3.1.1.4 and 3.1.1.5). The decoder
    reads and executes sequence by sequence; here that is proved to be reading
    them all and then executing them all. */
module ZstdSequences {
  import opened Numbers
  import opened Results
  import opened ZstdErrors
  import opened ZstdBits
  import opened ZstdHistory
  import opened FseTable

  // ----- length codes

  const LL_CODES: nat := 36
  const ML_CODES: nat := 53

  function LiteralLengthBase(code: nat): u32
  {
    if code < 16 then code
    else if code == 16 then 16
    else if code == 17 then 18
    else if code == 18 then 20
    else if code == 19 then 22
    else if code == 20 then 24
    else if code == 21 then 28
    else if code == 22 then 32
    else if code == 23 then 40
    else if code == 24 then 48
    else if code == 25 then 64
    else if code == 26 then 128
    else if code == 27 then 256
    else if code == 28 then 512
    else if code == 29 then 1024
    else if code == 30 then 2048
    else if code == 31 then 4096
    else if code == 32 then 8192
    else if code == 33 then 16384
    else if code == 34 then 32768
    else 65536
  }

  function LiteralLengthBits(code: nat): (bits: u8)
    ensures bits <= 16
  {
    if code <= 15 then 0
    else if code <= 19 then 1
    else if code <= 21 then 2
    else if code <= 23 then 3
    else if code <= 24 then 4
    else if code <= 25 then 6
    else if code <= 26 then 7
    else if code <= 27 then 8
    else if code <= 28 then 9
    else if code <= 29 then 10
    else if code <= 30 then 11
    else if code <= 31 then 12
    else if code <= 32 then 13
    else if code <= 33 then 14
    else if code <= 34 then 15
    else 16
  }

  function MatchLengthBase(code: nat): u32
  {
    if code < 32 then code + 3
    else if code == 32 then 35
    else if code == 33 then 37
    else if code == 34 then 39
    else if code == 35 then 41
    else if code == 36 then 43
    else if code == 37 then 47
    else if code == 38 then 51
    else if code == 39 then 59
    else if code == 40 then 67
    else if code == 41 then 83
    else if code == 42 then 99
    else if code == 43 then 131
    else if code == 44 then 259
    else if code == 45 then 515
    else if code == 46 then 1027
    else if code == 47 then 2051
    else if code == 48 then 4099
    else if code == 49 then 8195
    else if code == 50 then 16387
    else if code == 51 then 32771
    else 65539
  }

  function MatchLengthBits(code: nat): (bits: u8)
    ensures bits <= 16
  {
    if code <= 31 then 0
    else if code <= 35 then 1
    else if code <= 37 then 2
    else if code <= 39 then 3
    else if code <= 41 then 4
    else if code <= 42 then 5
    else if code <= 43 then 7
    else if code <= 44 then 8
    else if code <= 45 then 9
    else if code <= 46 then 10
    else if code <= 47 then 11
    else if code <= 48 then 12
    else if code <= 49 then 13
    else if code <= 50 then 14
    else if code <= 51 then 15
    else 16
  }

  /** The ranges of the literal length codes follow each other without gap or overlap. */
  lemma LiteralLengthCodesTile(code: nat)
    requires code < LL_CODES - 1
    ensures LiteralLengthBase(0) == 0
    ensures LiteralLengthBase(code + 1) == LiteralLengthBase(code) + Pow2(LiteralLengthBits(code))
  {
    hide Pow2;
    Pow2Values();
    LengthPowers();
  }

  /** So do those of the match length codes, which start at 3. */
  lemma MatchLengthCodesTile(code: nat)
    requires code < ML_CODES - 1
    ensures MatchLengthBase(0) == 3
    ensures MatchLengthBase(code + 1) == MatchLengthBase(code) + Pow2(MatchLengthBits(code))
  {
    hide Pow2;
    Pow2Values();
    LengthPowers();
  }

  // ----- repeat offsets

  datatype Recent = Recent(first: nat, second: nat, third: nat)

  const FRESH_OFFSETS := Recent(1, 4, 8)

  /** RFC 8878 section 3.1.1.5: values 1 to 3 name recent offsets, shifted by one
      when no literal precedes the match; the chosen offset becomes the most recent. */
  function Resolve(encoded: nat, literalLength: nat, recent: Recent): (r: Result<(nat, Recent), DecodeError>)
  {
    var Recent(first, second, third) := recent;
    if encoded == 0 then Err(InvalidOffset)
    else if encoded > 3 then Ok((encoded - 3, Recent(encoded - 3, first, second)))
    else
      match encoded + if literalLength == 0 then 1 else 0
      case 1 => Ok((first, recent))
      case 2 => Ok((second, Recent(second, first, third)))
      case 3 => Ok((third, Recent(third, first, second)))
      case _ => if first <= 1 then Err(InvalidOffset) else Ok((first - 1, Recent(first - 1, first, second)))
  }

  ghost predicate Positive(recent: Recent)
  {
    recent.first >= 1 && recent.second >= 1 && recent.third >= 1
  }

  /** The repeat offsets are never zero, and the resolved one is the most recent. */
  lemma ResolveKeepsPositive(encoded: nat, literalLength: nat, recent: Recent)
    requires Positive(recent) && Resolve(encoded, literalLength, recent).Ok?
    ensures Positive(Resolve(encoded, literalLength, recent).value.1)
    ensures Resolve(encoded, literalLength, recent).value.0 == Resolve(encoded, literalLength, recent).value.1.first
  {
  }

  ghost function RecentOf(repeated: array<u32>): Recent
    reads repeated
    requires repeated.Length == 3
  {
    Recent(repeated[0], repeated[1], repeated[2])
  }

  method RotateRight(a: array<u32>, n: nat)
    requires 0 < n <= a.Length
    modifies a
    ensures a[0] == old(a[n - 1])
    ensures forall i :: 1 <= i < n ==> a[i] == old(a[i - 1])
    ensures forall i :: n <= i < a.Length ==> a[i] == old(a[i])
  {
    var last := a[n - 1];
    for i := n - 1 downto 0
      invariant forall k :: 0 <= k <= i ==> a[k] == old(a[k])
      invariant forall k :: i < k < n ==> a[k] == old(a[k - 1])
      invariant forall k :: n <= k < a.Length ==> a[k] == old(a[k])
    {
      a[i + 1] := a[i];
    }
    a[0] := last;
  }

  /** A selected repeat moves to the front; a new offset evicts the oldest. */
  method ResolveOffset(encoded: u32, literalLength: nat, repeated: array<u32>) returns (r: Result<u32, DecodeError>)
    requires repeated.Length == 3
    modifies repeated
    ensures
      match Resolve(encoded, literalLength, old(RecentOf(repeated)))
      case Err(e) => r == Err(e) && RecentOf(repeated) == old(RecentOf(repeated))
      case Ok((value, recent)) => r == Ok(value) && RecentOf(repeated) == recent
  {
    if encoded == 0 {
      return Err(InvalidOffset);
    }
    var index: nat := if encoded <= 3 then encoded as int - 1 + (if literalLength == 0 then 1 else 0) else 2;
    var value: u32;
    if encoded > 3 {
      value := encoded as int - 3;
    } else if index == 3 {
      if repeated[0] <= 1 {
        return Err(InvalidOffset);
      }
      value := repeated[0] as int - 1;
    } else {
      value := repeated[index];
    }
    RotateRight(repeated, Min(index, 2) + 1);
    repeated[0] := value;
    r := Ok(value);
  }

  // ----- reading a sequence

  datatype Tables = Tables(literalLengths: TableView, offsets: TableView, matchLengths: TableView)

  /** The three states, and the bits that remain. */
  datatype Cursor = Cursor(literalLength: nat, offset: nat, matchLength: nat, s: seq<bit>)

  /** A sequence as it is coded: its offset is still relative to the repeat offsets. */
  datatype Raw = Raw(literalLength: nat, offset: nat, matchLength: nat)

  /** The extra bits of three codes: offset, match length, literal length. */
  function ReadExtra(ll: u8, of: u8, ml: u8, s: seq<bit>): (r: Result<(Raw, seq<bit>), DecodeError>)
    requires ll < LL_CODES && ml < ML_CODES && of <= 31
    ensures r.Ok? ==> r.value.0.offset < 0x1_0000_0000
  {
    var offsetBits :- TopBits(s, of);
    var s1 := s[of..];
    var matchBits :- TopBits(s1, MatchLengthBits(ml));
    var s2 := s1[MatchLengthBits(ml)..];
    var literalBits :- TopBits(s2, LiteralLengthBits(ll));
    var s3 := s2[LiteralLengthBits(ll)..];
    OffsetFits(of, offsetBits);
    Ok((Raw(LiteralLengthBase(ll) as int + literalBits, Pow2(of) + offsetBits, MatchLengthBase(ml) as int + matchBits),
        s3))
  }

  function ReadRaw(tables: Tables, at: Cursor): (r: Result<(Raw, seq<bit>), DecodeError>)
    ensures r.Ok? ==> r.value.0.offset < 0x1_0000_0000
  {
    var ll :- Lookup(tables.literalLengths, at.literalLength);
    var of :- Lookup(tables.offsets, at.offset);
    var ml :- Lookup(tables.matchLengths, at.matchLength);
    if ll.symbol >= LL_CODES || ml.symbol >= ML_CODES || of.symbol > 31 then Err(InvalidEntropyTable)
    else ReadExtra(ll.symbol, of.symbol, ml.symbol, at.s)
  }

  lemma OffsetFits(code: nat, bits: nat)
    requires code <= 31 && bits < Pow2(code)
    ensures Pow2(code) + bits < 0x1_0000_0000
  {
    Pow2Values();
    Pow2Monotone(code + 1, 32);
  }

  /** The states of the next sequence, read in the order literal length, match length, offset. */
  function Advance(tables: Tables, at: Cursor, s: seq<bit>): (r: Result<Cursor, DecodeError>)
  {
    var ll := NextState(tables.literalLengths, at.literalLength, s);
    var literalLength :- ll.0;
    var ml := NextState(tables.matchLengths, at.matchLength, ll.1);
    var matchLength :- ml.0;
    var of := NextState(tables.offsets, at.offset, ml.1);
    var offset :- of.0;
    Ok(Cursor(literalLength, offset, matchLength, of.1))
  }

  /** All n sequences, and the bits that are left. */
  function ReadAll(tables: Tables, at: Cursor, n: nat): (r: Result<(seq<Raw>, seq<bit>), DecodeError>)
    decreases n
  {
    if n == 0 then Ok(([], at.s))
    else
      var first :- ReadRaw(tables, at);
      if n == 1 then Ok(([first.0], first.1))
      else
        var next :- Advance(tables, at, first.1);
        var later :- ReadAll(tables, next, n - 1);
        Ok(([first.0] + later.0, later.1))
  }

  // ----- executing sequences

  /** What a block has produced: the frame's output, the repeat offsets, and how many literals are used. */
  datatype Progress = Progress(out: seq<u8>, recent: Recent, used: nat)

  /** The block's literals, and the sizes that bound its matches. */
  datatype Setting = Setting(literals: seq<u8>, window: nat, capacity: nat)

  /** Literals, then a match. */
  function Execute(p: Progress, raw: Raw, setting: Setting): (r: Result<Progress, DecodeError>)
  {
    var end := p.used + raw.literalLength;
    if end > |setting.literals| then Err(InvalidBlock)
    else
      var out :- Append(p.out, setting.literals[p.used..end], setting.capacity);
      var resolved :- Resolve(raw.offset, raw.literalLength, p.recent);
      var copied :- CopyMatch(out, resolved.0, raw.matchLength, setting.window, setting.capacity);
      Ok(Progress(copied, resolved.1, end))
  }

  function ExecuteAll(p: Progress, raws: seq<Raw>, setting: Setting): (r: Result<Progress, DecodeError>)
    decreases |raws|
  {
    if raws == [] then Ok(p)
    else
      var next :- Execute(p, raws[0], setting);
      ExecuteAll(next, raws[1..], setting)
  }

  /** What the decoder does: read one, execute it, read the next. */
  function Interleave(tables: Tables, at: Cursor, n: nat, p: Progress, setting: Setting)
    : (r: Result<(Progress, seq<bit>), DecodeError>)
    decreases n
  {
    if n == 0 then Ok((p, at.s))
    else
      var first :- ReadRaw(tables, at);
      var after :- Execute(p, first.0, setting);
      if n == 1 then Ok((after, first.1))
      else
        var next :- Advance(tables, at, first.1);
        Interleave(tables, next, n - 1, after, setting)
  }

  /** Interleaving succeeds exactly when reading everything and then executing everything does, with the same result. */
  lemma {:induction false} InterleaveIsReadThenExecute(tables: Tables, at: Cursor, n: nat, p: Progress,
      setting: Setting)
    ensures Interleave(tables, at, n, p, setting).Ok? <==>
            ReadAll(tables, at, n).Ok? && ExecuteAll(p, ReadAll(tables, at, n).value.0, setting).Ok?
    ensures Interleave(tables, at, n, p, setting).Ok? ==>
              Interleave(tables, at, n, p, setting).value.0
                  == ExecuteAll(p, ReadAll(tables, at, n).value.0, setting).value
              && Interleave(tables, at, n, p, setting).value.1 == ReadAll(tables, at, n).value.1
    decreases n
  {
    hide ReadRaw, Execute, Advance;
    if n > 0 {
      var first := ReadRaw(tables, at);
      if first.Ok? {
        var after := Execute(p, first.value.0, setting);
        if n == 1 {
          assert [first.value.0][1..] == [];
        } else {
          var next := Advance(tables, at, first.value.1);
          if next.Ok? {
            var later := ReadAll(tables, next.value, n - 1);
            if later.Ok? {
              assert ([first.value.0] + later.value.0)[1..] == later.value.0;
            }
            if after.Ok? {
              InterleaveIsReadThenExecute(tables, next.value, n - 1, after.value, setting);
            }
          }
        }
      }
    }
  }

  /** Output only grows, and the repeat offsets stay positive. */
  lemma {:induction false} ExecuteAllGrows(p: Progress, raws: seq<Raw>, setting: Setting)
    requires ExecuteAll(p, raws, setting).Ok? && Positive(p.recent) && p.used <= |setting.literals|
    ensures p.out <= ExecuteAll(p, raws, setting).value.out
    ensures Positive(ExecuteAll(p, raws, setting).value.recent)
    ensures p.used <= ExecuteAll(p, raws, setting).value.used <= |setting.literals|
    decreases |raws|
  {
    if raws != [] {
      ExecuteGrows(p, raws[0], setting);
      ExecuteAllGrows(Execute(p, raws[0], setting).value, raws[1..], setting);
    }
  }

  lemma ExecuteGrows(p: Progress, raw: Raw, setting: Setting)
    requires Execute(p, raw, setting).Ok? && Positive(p.recent)
    ensures p.out <= Execute(p, raw, setting).value.out
    ensures Positive(Execute(p, raw, setting).value.recent)
    ensures p.used <= Execute(p, raw, setting).value.used <= |setting.literals|
  {
    ResolveKeepsPositive(raw.offset, raw.literalLength, p.recent);
  }

  // ----- the loop over the ring

  ghost function TablesOf(ll: Table, of: Table, ml: Table): Tables
    reads ll, ll.entries, of, of.entries, ml, ml.entries
    requires ll.Valid() && of.Valid() && ml.Valid()
  {
    Tables(ll.View(), of.View(), ml.View())
  }

  /** Reads the codes of one sequence and their extra bits: offset first, then match length, then literal length. */
  method TakeRaw(ll: Table, of: Table, ml: Table, bits: BackwardBits, llState: nat, ofState: nat, mlState: nat)
    returns (r: Result<Raw, DecodeError>)
    requires ll.Valid() && of.Valid() && ml.Valid() && bits.Valid()
    modifies bits
    ensures bits.Valid()
    ensures
      match ReadRaw(TablesOf(ll, of, ml), Cursor(llState, ofState, mlState, old(bits.Stream())))
      case Err(e) => r == Err(e)
      case Ok((raw, s)) => r == Ok(raw) && bits.Stream() == s
  {
    hide Lookup, ReadExtra;
    var llCode :- ll.Symbol(llState);
    var ofCode :- of.Symbol(ofState);
    var mlCode :- ml.Symbol(mlState);
    if llCode >= LL_CODES || mlCode >= ML_CODES || ofCode > 31 {
      return Err(InvalidEntropyTable);
    }
    r := TakeExtra(llCode, ofCode, mlCode, bits);
  }

  method TakeExtra(llCode: u8, ofCode: u8, mlCode: u8, bits: BackwardBits) returns (r: Result<Raw, DecodeError>)
    requires bits.Valid() && llCode < LL_CODES && mlCode < ML_CODES && ofCode <= 31
    modifies bits
    ensures bits.Valid()
    ensures
      match ReadExtra(llCode, ofCode, mlCode, old(bits.Stream()))
      case Err(e) => r == Err(e)
      case Ok((raw, s)) => r == Ok(raw) && bits.Stream() == s
  {
    hide Pow2, Downward, Msb, LiteralLengthBase, LiteralLengthBits, MatchLengthBase, MatchLengthBits;
    var offsetBits :- bits.Read(ofCode);
    var matchBits :- bits.Read(MatchLengthBits(mlCode));
    var literalBits :- bits.Read(LiteralLengthBits(llCode));
    r := Ok(Raw(LiteralLengthBase(llCode) as int + literalBits, Pow2(ofCode) + offsetBits,
                MatchLengthBase(mlCode) as int + matchBits));
  }

  ghost function ProgressOf(history: History, repeated: array<u32>, used: nat): Progress
    reads history, repeated
    requires repeated.Length == 3
  {
    Progress(history.out, RecentOf(repeated), used)
  }

  /** Writes a sequence's literals and copies its match. */
  method ExecuteRaw(history: History, repeated: array<u32>, used: nat, raw: Raw, literals: array<u8>, count: nat,
                    window: nat)
    returns (r: Result<nat, DecodeError>)
    requires history.Valid() && history.Shaped() && repeated.Length == 3 && count <= literals.Length && used <= count
    requires history.buffer != literals && window <= history.buffer.Length && raw.offset < 0x1_0000_0000
    modifies history, history.buffer, repeated
    ensures history.Shaped()
    ensures
      match Execute(old(ProgressOf(history, repeated, used)), raw,
          Setting(literals[..count], window, history.buffer.Length))
      case Err(e) => r == Err(e)
      case Ok(p) =>
        && r == Ok(p.used) && p.used <= count && history.Valid() && ProgressOf(history, repeated, p.used) == p
        && history.origin == old(history.origin)
  {
    hide Resolve, Append, CopyMatch, Remembers, Placed;
    var end := used + raw.literalLength;
    if end > count {
      return Err(InvalidBlock);
    }
    assert literals[..count][used..end] == literals[used..end];
    var _ :- history.WriteAll(literals[used..end]);
    var offset :- ResolveOffset(raw.offset, raw.literalLength, repeated);
    var _ :- history.CopyFrom(offset, raw.matchLength, window);
    r := Ok(end);
  }

  /** The loop: read, execute, and update the states unless it was the last sequence. */
  method RunSequences(history: History, repeated: array<u32>, ll: Table, of: Table, ml: Table, bits: BackwardBits,
                      llStart: nat, ofStart: nat, mlStart: nat, literals: array<u8>, count: nat, n: nat, window: nat)
    returns (r: Result<nat, DecodeError>)
    requires ll.Valid() && of.Valid() && ml.Valid() && bits.Valid() && n > 0
    requires history.Valid() && history.Shaped() && repeated.Length == 3 && count <= literals.Length
    requires history.buffer != literals && window <= history.buffer.Length
    modifies history, history.buffer, repeated, bits
    ensures history.Shaped() && bits.Valid()
    ensures
      match Interleave(TablesOf(ll, of, ml), Cursor(llStart, ofStart, mlStart, old(bits.Stream())), n,
                       old(ProgressOf(history, repeated, 0)), Setting(literals[..count], window, history.buffer.Length))
      case Err(e) => r == Err(e)
      case Ok((p, s)) =>
        && r == Ok(p.used) && p.used <= count && history.Valid()
        && ProgressOf(history, repeated, p.used) == p && bits.Stream() == s && history.origin == old(history.origin)
  {
    hide ReadRaw, Execute, NextState, Remembers, Placed, Downward, TopBits;
    ghost var tables, setting := TablesOf(ll, of, ml), Setting(literals[..count], window, history.buffer.Length);
    ghost var whole := Interleave(tables, Cursor(llStart, ofStart, mlStart, bits.Stream()), n,
                                  ProgressOf(history, repeated, 0), setting);
    var llState, ofState, mlState := llStart, ofStart, mlStart;
    var used: nat := 0;
    for sequence := 0 to n
      invariant history.Valid() && history.Shaped() && bits.Valid() && used <= count
          && history.origin == old(history.origin)
      invariant ll.Valid() && of.Valid() && ml.Valid() && TablesOf(ll, of, ml) == tables
          && literals[..count] == setting.literals
      invariant Interleave(tables, Cursor(llState, ofState, mlState, bits.Stream()), n - sequence,
                           ProgressOf(history, repeated, used), setting) == whole
    {
      var raw :- TakeRaw(ll, of, ml, bits, llState, ofState, mlState);
      used :- ExecuteRaw(history, repeated, used, raw, literals, count, window);
      if sequence + 1 != n {
        llState :- ll.Update(llState, bits);
        mlState :- ml.Update(mlState, bits);
        ofState :- of.Update(ofState, bits);
      }
    }
    r := Ok(used);
  }

  /** The sequences' bit stream: three initial states, the sequences, nothing left over; then the last literals. */
  function Section(tables: Tables, s: seq<bit>, n: nat, p: Progress, setting: Setting)
    : (r: Result<Progress, DecodeError>)
  {
    var ll :- TopBits(s, tables.literalLengths.log);
    var s1 := s[tables.literalLengths.log..];
    var of :- TopBits(s1, tables.offsets.log);
    var s2 := s1[tables.offsets.log..];
    var ml :- TopBits(s2, tables.matchLengths.log);
    var done :- Interleave(tables, Cursor(ll, of, ml, s2[tables.matchLengths.log..]), n, p, setting);
    if done.1 != [] then Err(InvalidBitstream)
    else if done.0.used > |setting.literals| then Err(InvalidBlock)
    else
      var out :- Append(done.0.out, setting.literals[done.0.used..], setting.capacity);
      Ok(Progress(out, done.0.recent, |setting.literals|))
  }

  method RunSection(history: History, repeated: array<u32>, ll: Table, of: Table, ml: Table, bits: BackwardBits,
                    literals: array<u8>, count: nat, n: nat, window: nat)
    returns (r: Result<(), DecodeError>)
    requires ll.Valid() && of.Valid() && ml.Valid() && bits.Valid() && n > 0
    requires history.Valid() && history.Shaped() && repeated.Length == 3 && count <= literals.Length
    requires history.buffer != literals && window <= history.buffer.Length
    modifies history, history.buffer, repeated, bits
    ensures history.Shaped()
    ensures
      match Section(TablesOf(ll, of, ml), old(bits.Stream()), n, old(ProgressOf(history, repeated, 0)),
                    Setting(literals[..count], window, history.buffer.Length))
      case Err(e) => r == Err(e)
      case Ok(p) =>
        && r == Ok(()) && history.Valid() && ProgressOf(history, repeated, p.used) == p
        && history.origin == old(history.origin)
  {
    hide Interleave, Append, Remembers, Placed, Downward, TopBits;
    var llState :- bits.Read(ll.log);
    var ofState :- bits.Read(of.log);
    var mlState :- bits.Read(ml.log);
    var used :- RunSequences(history, repeated, ll, of, ml, bits, llState, ofState, mlState, literals, count, n,
        window);
    if bits.remaining != 0 {
      return Err(InvalidBitstream);
    }
    assert literals[..count][used..] == literals[used..count];
    var _ :- history.WriteAll(literals[used..count]);
    r := Ok(());
  }
}
