/** The sequence reader is onto: every list of sequences whose codes have slots
    has a bit string that reads back as exactly that list (the encoder side of
    zstd-zero/src/lib.rs lines 693-739). */
module SequenceCoding {
  import opened Numbers
  import opened Results
  import opened ZstdBits
  import opened FseTable
  import opened FseCoding
  import opened ZstdSequences

  ghost predicate TiledAll(t: Tables)
  {
    Tiled(t.literalLengths) && Tiled(t.offsets) && Tiled(t.matchLengths)
  }

  /** A sequence as codes and extra bits. */
  datatype Coded = Coded(llCode: nat, llExtra: nat, ofCode: nat, ofExtra: nat, mlCode: nat, mlExtra: nat)

  ghost predicate WellCoded(c: Coded, t: Tables)
  {
    && c.llCode < LL_CODES && c.llExtra < Pow2(LiteralLengthBits(c.llCode)) && HasSlot(t.literalLengths, c.llCode)
    && c.ofCode <= 31 && c.ofExtra < Pow2(c.ofCode) && HasSlot(t.offsets, c.ofCode)
    && c.mlCode < ML_CODES && c.mlExtra < Pow2(MatchLengthBits(c.mlCode)) && HasSlot(t.matchLengths, c.mlCode)
  }

  ghost predicate Codable(cs: seq<Coded>, t: Tables)
  {
    forall i :: 0 <= i < |cs| ==> WellCoded(cs[i], t)
  }

  ghost function RawOf(c: Coded): Raw
  {
    Raw(LiteralLengthBase(c.llCode) as int + c.llExtra, Pow2(c.ofCode) + c.ofExtra,
        MatchLengthBase(c.mlCode) as int + c.mlExtra)
  }

  ghost function RawsOf(cs: seq<Coded>): (raws: seq<Raw>)
    ensures |raws| == |cs|
  {
    seq(|cs|, i requires 0 <= i < |cs| => RawOf(cs[i]))
  }

  ghost function ExtraBits(c: Coded, t: Tables): seq<bit>
    requires WellCoded(c, t)
  {
    MsbDigits(c.ofExtra, c.ofCode)
        + (MsbDigits(c.mlExtra, MatchLengthBits(c.mlCode)) + MsbDigits(c.llExtra, LiteralLengthBits(c.llCode)))
  }

  /** The states of a cursor stand on slots of the sequence's codes, and lead to those of `next`. */
  ghost predicate Stands(c: Coded, t: Tables, at: Cursor, next: Cursor)
  {
    && Before(t.literalLengths, at.literalLength, c.llCode, next.literalLength)
    && Before(t.offsets, at.offset, c.ofCode, next.offset)
    && Before(t.matchLengths, at.matchLength, c.mlCode, next.matchLength)
  }

  /** From such states a sequence is read back from its extra bits. */
  lemma RawReadsBack(c: Coded, t: Tables, at: Cursor, next: Cursor, tail: seq<bit>)
    requires WellCoded(c, t) && Stands(c, t, at, next) && at.s == ExtraBits(c, t) + tail
    ensures ReadRaw(t, at) == Ok((RawOf(c), tail))
  {
    hide Pow2, TopBits, Msb, LiteralLengthBase, LiteralLengthBits, MatchLengthBase, MatchLengthBits, Before, Lookup,
        HasSlot;
    LooksUp(t.literalLengths, at.literalLength, c.llCode, next.literalLength);
    LooksUp(t.offsets, at.offset, c.ofCode, next.offset);
    LooksUp(t.matchLengths, at.matchLength, c.mlCode, next.matchLength);
    var matchPart, literalPart :=
        MsbDigits(c.mlExtra, MatchLengthBits(c.mlCode)), MsbDigits(c.llExtra, LiteralLengthBits(c.llCode));
    TopOf(c.ofExtra, c.ofCode, matchPart + (literalPart + tail));
    TopOf(c.mlExtra, MatchLengthBits(c.mlCode), literalPart + tail);
    TopOf(c.llExtra, LiteralLengthBits(c.llCode), tail);
    Regroup(MsbDigits(c.ofExtra, c.ofCode), matchPart, literalPart, tail);
  }

  lemma Regroup(a: seq<bit>, b: seq<bit>, c: seq<bit>, tail: seq<bit>)
    ensures a + (b + c) + tail == a + (b + (c + tail))
  {
  }

  lemma Regroup5(e: seq<bit>, a: seq<bit>, b: seq<bit>, c: seq<bit>, d: seq<bit>, tail: seq<bit>)
    ensures e + (a + (b + (c + d))) + tail == e + (a + (b + (c + (d + tail))))
  {
    Regroup(a, b, c + d, tail);
    assert c + d + tail == c + (d + tail);
    assert e + (a + (b + (c + d))) + tail == e + (a + (b + (c + d)) + tail);
  }

  /** From `at` on the bits read as the sequences `cs`, whatever follows. */
  ghost predicate Spells(t: Tables, at: Cursor, cs: seq<Coded>)
  {
    forall tail: seq<bit> :: ReadAll(t, at.(s := at.s + tail), |cs|) == Ok((RawsOf(cs), tail))
  }

  /** States before those of `next` that decode the sequence. */
  lemma StandsBefore(c: Coded, t: Tables, next: Cursor, s: seq<bit>) returns (at: Cursor)
    requires TiledAll(t) && WellCoded(c, t)
    requires next.literalLength < Pow2(t.literalLengths.log) || next.literalLength == 0
    requires next.offset < Pow2(t.offsets.log) || next.offset == 0
    requires next.matchLength < Pow2(t.matchLengths.log) || next.matchLength == 0
    ensures at.s == s && Stands(c, t, at, next)
    ensures at.literalLength < Pow2(t.literalLengths.log) && at.offset < Pow2(t.offsets.log)
    ensures at.matchLength < Pow2(t.matchLengths.log)
  {
    hide Pow2, Tiled, HasSlot, Before;
    var ll := SlotBefore(t.literalLengths, c.llCode, next.literalLength);
    var of := SlotBefore(t.offsets, c.ofCode, next.offset);
    var ml := SlotBefore(t.matchLengths, c.mlCode, next.matchLength);
    at := Cursor(ll, of, ml, s);
  }

  /** Every list of well-coded sequences has initial states and a bit string that spell it, whatever follows. */
  lemma {:induction false} SequencesHaveACode(cs: seq<Coded>, t: Tables) returns (at: Cursor)
    requires TiledAll(t) && cs != [] && Codable(cs, t)
    ensures at.literalLength < Pow2(t.literalLengths.log) && at.offset < Pow2(t.offsets.log)
    ensures at.matchLength < Pow2(t.matchLengths.log)
    ensures Spells(t, at, cs)
    decreases |cs|
  {
    hide Pow2, Spells, Leads, ExtraBits, WellCoded, Tiled, Stands;
    var c := cs[0];
    if |cs| == 1 {
      at := StandsBefore(c, t, Cursor(0, 0, 0, []), ExtraBits(c, t));
      OneReadsBack(cs, t, at, Cursor(0, 0, 0, []));
    } else {
      var next := SequencesHaveACode(cs[1..], t);
      at := StandsBefore(c, t, next, []);
      var b1, b2, b3 := StepsFrom(c, t, at, next);
      at := at.(s := ExtraBits(c, t) + (b1 + (b3 + (b2 + next.s))));
      MoreReadsBack(cs, t, at, next, b1, b2, b3);
    }
  }

  lemma StepsFrom(c: Coded, t: Tables, at: Cursor, next: Cursor) returns (b1: seq<bit>, b2: seq<bit>, b3: seq<bit>)
    requires TiledAll(t) && Stands(c, t, at, next)
    ensures forall s :: Stands(c, t, at.(s := s), next)
    ensures Leads(t.literalLengths, at.literalLength, b1, next.literalLength)
        && Leads(t.offsets, at.offset, b2, next.offset)
    ensures Leads(t.matchLengths, at.matchLength, b3, next.matchLength)
  {
    hide Tiled, Before, Leads;
    b1 := StepFrom(t.literalLengths, at.literalLength, c.llCode, next.literalLength);
    b2 := StepFrom(t.offsets, at.offset, c.ofCode, next.offset);
    b3 := StepFrom(t.matchLengths, at.matchLength, c.mlCode, next.matchLength);
  }

  lemma OneReadsBack(cs: seq<Coded>, t: Tables, at: Cursor, next: Cursor)
    requires |cs| == 1 && WellCoded(cs[0], t) && Stands(cs[0], t, at, next) && at.s == ExtraBits(cs[0], t)
    ensures Spells(t, at, cs)
  {
    hide Pow2, ExtraBits, WellCoded, RawOf, ReadRaw, Before;
    assert RawsOf(cs) == [RawOf(cs[0])];
    forall tail: seq<bit>
      ensures ReadAll(t, at.(s := at.s + tail), 1) == Ok((RawsOf(cs), tail))
    {
      RawReadsBack(cs[0], t, at.(s := at.s + tail), next, tail);
    }
  }

  lemma MoreReadsBack(cs: seq<Coded>, t: Tables, at: Cursor, next: Cursor, b1: seq<bit>, b2: seq<bit>, b3: seq<bit>)
    requires |cs| > 1 && WellCoded(cs[0], t) && Stands(cs[0], t, at, next)
    requires at.s == ExtraBits(cs[0], t) + (b1 + (b3 + (b2 + next.s)))
    requires Leads(t.literalLengths, at.literalLength, b1, next.literalLength)
        && Leads(t.offsets, at.offset, b2, next.offset)
    requires Leads(t.matchLengths, at.matchLength, b3, next.matchLength)
    requires Spells(t, next, cs[1..])
    ensures Spells(t, at, cs)
  {
    hide Pow2, ExtraBits, WellCoded, RawOf, ReadRaw, Advance, Leads, ReadAll, RawsOf, Before;
    forall tail: seq<bit>
      ensures ReadAll(t, at.(s := at.s + tail), |cs|) == Ok((RawsOf(cs), tail))
    {
      var behind := b1 + (b3 + (b2 + (next.s + tail)));
      Regroup5(ExtraBits(cs[0], t), b1, b3, b2, next.s, tail);
      RawReadsBack(cs[0], t, at.(s := at.s + tail), next, behind);
      StatesAdvance(t, at, next, b1, b2, b3, tail);
      ReadAllStep(t, at.(s := at.s + tail), next.(s := next.s + tail), cs, behind, tail);
    }
  }

  lemma ReadAllStep(t: Tables, at: Cursor, next: Cursor, cs: seq<Coded>, behind: seq<bit>, tail: seq<bit>)
    requires |cs| > 1 && ReadRaw(t, at) == Ok((RawOf(cs[0]), behind))
    requires Advance(t, at, behind) == Ok(next)
    requires ReadAll(t, next, |cs| - 1) == Ok((RawsOf(cs[1..]), tail))
    ensures ReadAll(t, at, |cs|) == Ok((RawsOf(cs), tail))
  {
    hide ReadRaw, Advance, RawOf;
    assert RawsOf(cs) == [RawOf(cs[0])] + RawsOf(cs[1..]);
  }

  /** The three update codes lead from the slots to the next states. */
  lemma StatesAdvance(t: Tables, at: Cursor, next: Cursor, b1: seq<bit>, b2: seq<bit>, b3: seq<bit>, tail: seq<bit>)
    requires Leads(t.literalLengths, at.literalLength, b1, next.literalLength)
        && Leads(t.offsets, at.offset, b2, next.offset)
    requires Leads(t.matchLengths, at.matchLength, b3, next.matchLength)
    ensures Advance(t, at.(s := at.s + tail), b1 + (b3 + (b2 + (next.s + tail)))) == Ok(next.(s := next.s + tail))
  {
    hide NextState;
  }
}
