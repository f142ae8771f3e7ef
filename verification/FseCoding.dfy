/** What an FSE table can spell (the encoder side of zstd-zero/src/fse.rs lines
    58-73): if the next-state intervals of each symbol tile the states, then
    before every state every symbol of the table can be decoded. */
module FseCoding {
  import opened Numbers
  import opened Results
  import opened ZstdBits
  import opened FseSpread
  import opened FseTableSpec
  import opened FseTable

  /** The symbol has a slot in the table. */
  ghost predicate HasSlot(t: TableView, symbol: nat)
  {
    exists p :: 0 <= p < |t.entries| && t.entries[p].symbol == symbol
  }

  /** Slot p decodes the symbol, and can be followed by the state. */
  ghost predicate Before(t: TableView, p: nat, symbol: nat, state: nat)
  {
    p < |t.entries| && t.entries[p].symbol == symbol && Covers(t.entries[p], state)
  }

  /** The symbol can be decoded before the state. */
  ghost predicate Precedes(t: TableView, symbol: nat, state: nat)
  {
    exists p :: Before(t, p, symbol, state)
  }

  /** Every symbol of the table has a slot before every state. */
  ghost predicate Tiled(t: TableView)
  {
    && |t.entries| == Pow2(t.log) && t.log <= MAX_TABLE_LOG
    && (forall p :: 0 <= p < |t.entries| ==> t.entries[p].bits <= t.log)
    && forall symbol: nat, state: nat :: HasSlot(t, symbol) && state < Pow2(t.log) ==> Precedes(t, symbol, state)
  }

  ghost function TableOf(ps: seq<i16>, log: nat): TableView
    requires Buildable(ps, log)
  {
    TableView(Entries(ps, log), log)
  }

  /** The symbols of a built table are those with a count. */
  lemma SlotsAreCounts(ps: seq<i16>, log: nat, symbol: nat)
    requires Buildable(ps, log) && log != 1 && log != 3
    ensures HasSlot(TableOf(ps, log), symbol) <==> symbol < |ps| && Norm(ps[symbol]) > 0
  {
    hide Symbols, Total, Counter, Covers;
    var t := TableOf(ps, log);
    if symbol < |ps| && Norm(ps[symbol]) > 0 {
      Pow2Positive(log);
      var p := NextStatesTile(ps, log, symbol, 0);
      assert t.entries[p].symbol == symbol;
    } else {
      forall p | 0 <= p < |t.entries|
        ensures t.entries[p].symbol != symbol
      {
        assert HasCount(ps, log, p);
      }
    }
  }

  lemma Pow2Positive(n: nat)
    ensures Pow2(n) > 0
  {
  }

  /** Every table that is built from counts is tiled. */
  lemma BuiltIsTiled(ps: seq<i16>, log: nat)
    requires Buildable(ps, log) && log != 1 && log != 3
    ensures Tiled(TableOf(ps, log))
  {
    hide Symbols, Total, Counter, Covers, EntryAt, HasSlot;
    var t := TableOf(ps, log);
    forall p | 0 <= p < |t.entries|
      ensures t.entries[p].bits <= log
    {
      BitsAtMostLog(ps, log, p);
    }
    forall symbol: nat, state: nat | HasSlot(t, symbol) && state < Pow2(log)
      ensures Precedes(t, symbol, state)
    {
      SlotsAreCounts(ps, log, symbol);
      var p := NextStatesTile(ps, log, symbol, state);
      assert Before(t, p, symbol, state);
    }
  }

  /** So is the table of a single symbol. */
  lemma RleIsTiled(byte: u8)
    ensures Tiled(RleView(byte))
    ensures forall symbol: nat :: HasSlot(RleView(byte), symbol) <==> symbol == byte
  {
    var t := RleView(byte);
    assert t.entries[0].symbol == byte;
    forall symbol: nat, state: nat | HasSlot(t, symbol) && state < Pow2(0)
      ensures Precedes(t, symbol, state)
    {
      assert Before(t, 0, symbol, state);
    }
  }

  lemma SlotBefore(t: TableView, symbol: nat, next: nat) returns (state: nat)
    requires Tiled(t) && HasSlot(t, symbol) && (next < Pow2(t.log) || next == 0)
    ensures state < Pow2(t.log) && Before(t, state, symbol, next)
  {
    hide HasSlot, Covers;
    Pow2Positive(t.log);
    assert Precedes(t, symbol, next);
    state :| Before(t, state, symbol, next);
  }

  /** Behind a state, `code` leads to the state `next`, whatever follows. */
  ghost predicate Leads(t: TableView, state: nat, code: seq<bit>, next: nat)
  {
    forall tail: seq<bit> :: NextState(t, state, code + tail) == (Ok(next), tail)
  }

  lemma StepFrom(t: TableView, state: nat, symbol: nat, next: nat) returns (code: seq<bit>)
    requires Tiled(t) && Before(t, state, symbol, next)
    ensures Leads(t, state, code, next)
    ensures |code| == t.entries[state].bits
  {
    hide Msb, HasSlot, Pow2;
    var entry := t.entries[state];
    code := MsbDigits(next - entry.baseline, entry.bits);
    forall tail: seq<bit>
      ensures NextState(t, state, code + tail) == (Ok(next), tail)
    {
      assert (code + tail)[..entry.bits] == code && (code + tail)[entry.bits..] == tail;
    }
  }

  lemma LooksUp(t: TableView, state: nat, symbol: nat, next: nat)
    requires Before(t, state, symbol, next)
    ensures Lookup(t, state).Ok? && Lookup(t, state).value.symbol == symbol
  {
  }
}
