/** The two bit readers (zstd-zero/src/bitstream.rs).

    The specification is per bit: a byte string is a string of bits, least
    significant bit of byte 0 first. A forward reader hands out numbers whose
    first bit is the least significant one; a backward reader starts below an
    end marker, walks down, and hands out numbers whose first bit is the most
    significant one. Everything above this module sees bit strings only. */
module ZstdBits {
  import opened Numbers
  import opened Results
  import opened ZstdErrors

  // ----- bits of a byte string

  function BitAt(data: seq<u8>, i: nat): bit
    requires i < 8 * |data|
  {
    data[i / 8] / Pow2(i % 8) % 2
  }

  /** The number whose binary digits are bits `start`, `start + 1`, ..., least significant first. */
  function Field(data: seq<u8>, start: nat, count: nat): (value: nat)
    requires start + count <= 8 * |data|
    ensures value < Pow2(count)
    decreases count
  {
    if count == 0 then 0 else BitAt(data, start) + 2 * Field(data, start + 1, count - 1)
  }

  lemma {:induction false} FieldSplit(data: seq<u8>, start: nat, low: nat, high: nat)
    requires start + low + high <= 8 * |data|
    ensures Field(data, start, low + high) == Field(data, start, low) + Pow2(low) * Field(data, start + low, high)
    decreases low
  {
    hide BitAt;
    if low == 0 {
    } else {
      FieldSplit(data, start + 1, low - 1, high);
      MulAssociative(2, Pow2(low - 1), Field(data, start + low, high));
    }
  }

  // ----- the word that `extract` assembles

  function LittleEndian(bytes: seq<u8>): (value: nat)
  {
    if bytes == [] then 0 else bytes[0] + 256 * LittleEndian(bytes[1..])
  }

  lemma {:induction false} LittleEndianZeros(bytes: seq<u8>, zeros: seq<u8>)
    requires forall i :: 0 <= i < |zeros| ==> zeros[i] == 0
    ensures LittleEndian(bytes + zeros) == LittleEndian(bytes)
    decreases |bytes| + |zeros|
  {
    if bytes != [] {
      assert (bytes + zeros)[1..] == bytes[1..] + zeros;
      LittleEndianZeros(bytes[1..], zeros);
    } else if zeros != [] {
      assert bytes + zeros == zeros;
      assert [] + zeros[1..] == zeros[1..];
      LittleEndianZeros([], zeros[1..]);
    }
  }

  lemma {:induction false} FieldWithinByte(data: seq<u8>, k: nat, i: nat)
    requires k < |data| && i <= 8
    ensures Field(data, 8 * k + i, 8 - i) == data[k] / Pow2(i)
    decreases 8 - i
  {
    hide Pow2;
    if i < 8 {
      FieldWithinByte(data, k, i + 1);
      assert (8 * k + i) / 8 == k && (8 * k + i) % 8 == i;
      HalfOfQuotient(data[k], i);
    } else {
      assert Pow2(8) == 256 by { Pow2Values(); }
      DivModUnique(data[k], 256, 0, data[k]);
    }
  }

  lemma HalfOfQuotient(n: nat, i: nat)
    ensures n / Pow2(i) == n / Pow2(i) % 2 + 2 * (n / Pow2(i + 1))
  {
    hide Pow2;
    var p := Pow2(i);
    assert Pow2(i + 1) == 2 * p by { Pow2Add(1, i); Pow2Values(); }
    var q, r := n / p, n % p;
    var h, b := q / 2, q % 2;
    DivMod(n, p);
    HalvedQuotient(p, h, b, r);
    DivModUnique(n, 2 * p, h, b * p + r);
  }

  lemma HalvedQuotient(p: nat, h: nat, b: nat, r: nat)
    requires b < 2 && r < p
    ensures (2 * h + b) * p + r == h * (2 * p) + (b * p + r)
    ensures b * p + r < 2 * p
  {
    MulDistributive(p, 2 * h, b);
    MulAssociative(h, 2, p);
    if b == 1 { assert b * p == p; }
  }

  lemma {:induction false} LittleEndianIsField(data: seq<u8>, from: nat, to: nat)
    requires from <= to <= |data|
    ensures LittleEndian(data[from..to]) == Field(data, 8 * from, 8 * (to - from))
    decreases |data| - from
  {
    hide BitAt, Field, Pow2;
    if from == to {
      assert Field(data, 8 * from, 0) < Pow2(0) == 1 by { Pow2Values(); }
    } else {
      assert data[from..to][1..] == data[from + 1..to];
      LittleEndianIsField(data, from + 1, to);
      assert Field(data, 8 * from, 8) == data[from] by { FieldWithinByte(data, from, 0); Pow2Values(); }
      assert Pow2(8) == 256 by { Pow2Values(); }
      FieldSplit(data, 8 * from, 8, 8 * (to - (from + 1)));
    }
  }

  /** `extract`: copy the covering bytes into a zeroed eight-byte word, shift, mask. */
  function Extract(data: seq<u8>, start: nat, count: nat): (value: nat)
    requires count <= 32 && start + count <= 8 * |data|
  {
    var offset := start % 8;
    var length := (offset + count + 7) / 8;
    var word := data[start / 8..start / 8 + length] + seq(8 - length, _ => 0);
    (LittleEndian(word) / Pow2(offset)) % Pow2(count)
  }

  lemma ExtractIsField(data: seq<u8>, start: nat, count: nat)
    requires count <= 32 && start + count <= 8 * |data|
    ensures Extract(data, start, count) == Field(data, start, count)
  {
    hide BitAt, Field, Pow2, LittleEndian;
    var offset, first := start % 8, start / 8;
    var length := (offset + count + 7) / 8;
    var spare := 8 * length - offset - count;
    var covering := data[first..first + length];
    LittleEndianZeros(covering, seq(8 - length, _ => 0));
    LittleEndianIsField(data, first, first + length);
    var low, mid, high := Field(data, 8 * first, offset), Field(data, start, count), Field(data, start + count, spare);
    FieldSplit(data, 8 * first, offset, count + spare);
    FieldSplit(data, start, count, spare);
    ShiftMask(low, Pow2(offset), mid, Pow2(count), high);
  }

  // ----- bit strings

  /** Value of a bit string whose first bit is the most significant one. */
  function Msb(s: seq<bit>): (value: nat)
    ensures value < Pow2(|s|)
  {
    if s == [] then 0 else
      assert (s[0] == 0 || s[0] == 1) && Pow2(|s|) == 2 * Pow2(|s| - 1);
      s[0] * Pow2(|s| - 1) + Msb(s[1..])
  }

  /** Value of a bit string whose first bit is the least significant one. */
  function Lsb(s: seq<bit>): (value: nat)
    ensures value < Pow2(|s|)
  {
    if s == [] then 0 else s[0] + 2 * Lsb(s[1..])
  }

  /** The `count` binary digits of `n`, most significant first. */
  function MsbDigits(n: nat, count: nat): (s: seq<bit>)
    requires n < Pow2(count)
    ensures |s| == count && Msb(s) == n
  {
    if count == 0 then [] else
      var half := Pow2(count - 1);
      if n < half then
        assert ([0] + MsbDigits(n, count - 1))[1..] == MsbDigits(n, count - 1);
        [0] + MsbDigits(n, count - 1)
      else
        assert ([1] + MsbDigits(n - half, count - 1))[1..] == MsbDigits(n - half, count - 1);
        [1] + MsbDigits(n - half, count - 1)
  }

  /** The `count` binary digits of `n`, least significant first. */
  function LsbDigits(n: nat, count: nat): (s: seq<bit>)
    requires n < Pow2(count)
    ensures |s| == count && Lsb(s) == n
  {
    if count == 0 then [] else
      assert ([n % 2] + LsbDigits(n / 2, count - 1))[1..] == LsbDigits(n / 2, count - 1);
      [n % 2] + LsbDigits(n / 2, count - 1)
  }

  lemma {:induction false} MsbSplit(s: seq<bit>, t: seq<bit>)
    ensures Msb(s + t) == Msb(s) * Pow2(|t|) + Msb(t)
  {
    hide Pow2;
    if s == [] {
      assert s + t == t;
    } else {
      assert (s + t)[1..] == s[1..] + t;
      MsbSplit(s[1..], t);
      Pow2Add(|s| - 1, |t|);
      MulAssociative(s[0], Pow2(|s| - 1), Pow2(|t|));
      MulDistributive(Pow2(|t|), s[0] * Pow2(|s| - 1), Msb(s[1..]));
    }
  }

  lemma {:induction false} LsbSplit(s: seq<bit>, t: seq<bit>)
    ensures Lsb(s + t) == Lsb(s) + Pow2(|s|) * Lsb(t)
  {
    if s == [] {
      assert s + t == t;
    } else {
      assert (s + t)[1..] == s[1..] + t;
      LsbSplit(s[1..], t);
      MulAssociative(2, Pow2(|s| - 1), Lsb(t));
    }
  }

  lemma {:induction false} MsbInjective(s: seq<bit>, t: seq<bit>)
    requires |s| == |t| && Msb(s) == Msb(t)
    ensures s == t
  {
    if s != [] {
      MsbInjective(s[1..], t[1..]);
      assert s == [s[0]] + s[1..] && t == [t[0]] + t[1..];
    }
  }

  lemma {:induction false} LsbInjective(s: seq<bit>, t: seq<bit>)
    requires |s| == |t| && Lsb(s) == Lsb(t)
    ensures s == t
  {
    if s != [] {
      LsbInjective(s[1..], t[1..]);
      assert s == [s[0]] + s[1..] && t == [t[0]] + t[1..];
    }
  }

  // ----- the backward reader

  /** Bits `remaining - 1` down to 0: what a backward reader still has to deliver, in order. */
  function Downward(data: seq<u8>, remaining: nat): (s: seq<bit>)
    requires remaining <= 8 * |data|
    ensures |s| == remaining
  {
    seq<bit>(remaining, i requires 0 <= i < remaining => BitAt(data, remaining - 1 - i))
  }

  lemma SingleBitField(data: seq<u8>, i: nat)
    requires i < 8 * |data|
    ensures Field(data, i, 1) == BitAt(data, i)
  {
    hide BitAt;
    assert Field(data, i + 1, 0) == 0;
  }

  lemma {:induction false} DownwardValue(data: seq<u8>, remaining: nat, count: nat)
    requires count <= remaining <= 8 * |data|
    ensures Field(data, remaining - count, count) == Msb(Downward(data, remaining)[..count])
    ensures Downward(data, remaining)[count..] == Downward(data, remaining - count)
    decreases count
  {
    hide BitAt, Pow2, Field;
    var s := Downward(data, remaining)[..count];
    if count == 0 {
      Pow2Values();
      assert s == [] && Field(data, remaining, 0) < Pow2(0);
    } else {
      var top := remaining - 1;
      assert Downward(data, remaining) == [BitAt(data, top)] + Downward(data, top);
      DownwardValue(data, top, count - 1);
      assert s[1..] == Downward(data, top)[..count - 1];
      FieldSplit(data, remaining - count, count - 1, 1);
      SingleBitField(data, top);
      assert Pow2(count - 1) * s[0] == s[0] * Pow2(count - 1);
    }
  }

  class BackwardBits {
    const data: seq<u8>
    var remaining: nat

    ghost predicate Valid()
      reads this
    {
      remaining <= 8 * |data|
    }

    ghost function Stream(): (s: seq<bit>)
      reads this
      requires Valid()
    {
      Downward(data, remaining)
    }

    constructor At(data: seq<u8>, remaining: nat)
      requires remaining <= 8 * |data|
      ensures Valid() && this.data == data && Stream() == Downward(data, remaining)
    {
      this.data := data;
      this.remaining := remaining;
    }

    /** Fails on an empty string or one without an end marker in its last byte. */
    static method Open(data: seq<u8>) returns (r: Result<BackwardBits, DecodeError>)
      ensures r == Err(InvalidBitstream) <==> Payload(data).None?
      ensures r.Err? ==> r.error == InvalidBitstream
      ensures r.Ok? ==> fresh(r.value) && r.value.Valid() && Payload(data) == Some(r.value.Stream())
    {
      if |data| == 0 {
        return Err(InvalidBitstream);
      }
      var last := data[|data| - 1];
      if last == 0 {
        return Err(InvalidBitstream);
      }
      var marker := Log2(last);
      MarkerFitsByte(last);
      var bits := new BackwardBits.At(data, (|data| - 1) * 8 + marker);
      return Ok(bits);
    }

    method Read(count: nat) returns (r: Result<u32, DecodeError>)
      requires Valid()
      modifies this
      ensures Valid()
      ensures r == TopBits(old(Stream()), count)
      ensures Stream() == (if r.Ok? then old(Stream())[count..] else old(Stream()))
    {
      hide Extract, Field, Pow2, BitAt, Msb;
      if count > 32 || count > remaining {
        return Err(InvalidBitstream);
      }
      DownwardValue(data, remaining, count);
      TopBitsFit(Downward(data, remaining), count);
      ExtractIsField(data, remaining - count, count);
      remaining := remaining - count;
      r := Ok(Extract(data, remaining, count));
    }

    function PeekPadded(count: nat): (value: nat)
      requires Valid() && count <= 32
      reads this
      ensures value == Peek(Stream(), count)
    {
      var available := Min(count, remaining);
      PaddedExtract(data, remaining, count);
      Extract(data, remaining - available, available) * Pow2(count - available)
    }

    method Consume(count: nat) returns (r: Result<(), DecodeError>)
      requires Valid()
      modifies this
      ensures Valid()
      ensures r == if count > |old(Stream())| then Err(InvalidBitstream) else Ok(())
      ensures Stream() == (if r.Ok? then old(Stream())[count..] else old(Stream()))
    {
      if count > remaining {
        return Err(InvalidBitstream);
      }
      DownwardValue(data, remaining, count);
      remaining := remaining - count;
      r := Ok(());
    }
  }

  lemma MarkerFitsByte(last: u8)
    requires last > 0
    ensures Log2(last) <= 7
  {
    Pow2Values();
    if Log2(last) > 7 {
      Pow2Monotone(8, Log2(last));
    }
  }

  /** The bits below the end marker, the highest one in the last byte; none if that byte is zero. */
  function Payload(data: seq<u8>): (s: Option<seq<bit>>)
  {
    if |data| == 0 || data[|data| - 1] == 0 then None
    else
      MarkerFitsByte(data[|data| - 1]);
      Some(Downward(data, 8 * (|data| - 1) + Log2(data[|data| - 1])))
  }

  /** What a reader delivers for `count` bits: their value, or an error if there are too few. */
  function TopBits(s: seq<bit>, count: nat): (r: Result<nat, DecodeError>)
    ensures r.Ok? <==> count <= 32 && count <= |s|
    ensures r.Ok? ==> r.value < Pow2(count)
  {
    if count > 32 || count > |s| then Err(InvalidBitstream) else Ok(Msb(s[..count]))
  }

  /** Written digits read back, whatever follows. */
  lemma TopOf(value: nat, count: nat, tail: seq<bit>)
    requires count <= 32 && value < Pow2(count)
    ensures TopBits(MsbDigits(value, count) + tail, count) == Ok(value)
    ensures (MsbDigits(value, count) + tail)[count..] == tail
  {
    hide Msb, Pow2;
    assert (MsbDigits(value, count) + tail)[..count] == MsbDigits(value, count);
  }

  lemma TopBitsFit(s: seq<bit>, count: nat)
    requires count <= 32 && count <= |s|
    ensures Msb(s[..count]) < 0x1_0000_0000
  {
    Pow2Values();
    Pow2Monotone(count, 32);
  }

  /** The next `count` bits, as if the string went on with zeros. */
  function Peek(s: seq<bit>, count: nat): (value: nat)
    ensures value < Pow2(count)
  {
    var available := Min(count, |s|);
    PaddedFits(Msb(s[..available]), available, count - available);
    Msb(s[..available]) * Pow2(count - available)
  }

  lemma PaddedFits(value: nat, width: nat, padding: nat)
    requires value < Pow2(width)
    ensures value * Pow2(padding) < Pow2(width + padding)
  {
    hide Pow2;
    Pow2Add(width, padding);
    MulMonotone(value + 1, Pow2(width), Pow2(padding));
    MulDistributive(Pow2(padding), value, 1);
  }

  lemma PaddedExtract(data: seq<u8>, remaining: nat, count: nat)
    requires remaining <= 8 * |data| && count <= 32
    ensures
      var available := Min(count, remaining);
      Extract(data, remaining - available, available) * Pow2(count - available)
          == Peek(Downward(data, remaining), count)
  {
    hide Pow2, Field, BitAt, Msb, Extract;
    var available := Min(count, remaining);
    ExtractIsField(data, remaining - available, available);
    DownwardValue(data, remaining, available);
  }

  /** Reading k bits and then m bits is reading k + m bits. */
  lemma ReadsCompose(s: seq<bit>, k: nat, m: nat)
    requires k + m <= 32 && k + m <= |s|
    ensures TopBits(s, k + m).value == TopBits(s, k).value * Pow2(m) + TopBits(s[k..], m).value
  {
    assert s[..k + m] == s[..k] + s[k..][..m];
    MsbSplit(s[..k], s[k..][..m]);
  }

  // ----- the forward reader

  function Upward(data: seq<u8>, position: nat): (s: seq<bit>)
    requires position <= 8 * |data|
    ensures |s| == 8 * |data| - position
  {
    seq<bit>(8 * |data| - position, i requires 0 <= i < 8 * |data| - position => BitAt(data, position + i))
  }

  lemma {:induction false} UpwardValue(data: seq<u8>, position: nat, count: nat)
    requires position + count <= 8 * |data|
    ensures Field(data, position, count) == Lsb(Upward(data, position)[..count])
    ensures Upward(data, position)[count..] == Upward(data, position + count)
    decreases count
  {
    hide BitAt, Pow2;
    if count > 0 {
      UpwardValue(data, position + 1, count - 1);
      var s := Upward(data, position)[..count];
      assert s[1..] == Upward(data, position + 1)[..count - 1];
    }
  }

  function LowBits(s: seq<bit>, count: nat): (r: Result<nat, DecodeError>)
    ensures r.Ok? <==> count <= 32 && count <= |s|
    ensures r.Ok? ==> r.value < Pow2(count)
  {
    if count > 32 || count > |s| then Err(InvalidBitstream) else Ok(Lsb(s[..count]))
  }

  lemma LowBitsFit(s: seq<bit>, count: nat)
    requires count <= 32 && count <= |s|
    ensures Lsb(s[..count]) < 0x1_0000_0000
  {
    Pow2Values();
    Pow2Monotone(count, 32);
  }

  class ForwardBits {
    const data: seq<u8>
    var position: nat

    ghost predicate Valid()
      reads this
    {
      position <= 8 * |data|
    }

    ghost function Stream(): (s: seq<bit>)
      reads this
      requires Valid()
    {
      Upward(data, position)
    }

    constructor (data: seq<u8>, position: nat)
      requires position <= 8 * |data|
      ensures Valid() && this.data == data && this.position == position
    {
      this.data := data;
      this.position := position;
    }

    method Read(count: nat) returns (r: Result<u32, DecodeError>)
      requires Valid()
      modifies this
      ensures Valid()
      ensures r == LowBits(old(Stream()), count)
      ensures position == old(position) + if r.Ok? then count else 0
      ensures Stream() == (if r.Ok? then old(Stream())[count..] else old(Stream()))
    {
      hide Extract, Field, Pow2, BitAt, Lsb;
      if count > 32 || position + count > |data| * 8 {
        return Err(InvalidBitstream);
      }
      UpwardValue(data, position, count);
      ExtractIsField(data, position, count);
      LowBitsFit(Upward(data, position), count);
      var value := Extract(data, position, count);
      position := position + count;
      r := Ok(value);
    }

    /** Gives back the last `count` bits. */
    method Rewind(count: nat) returns (r: Result<(), DecodeError>)
      requires Valid()
      modifies this
      ensures Valid()
      ensures r == if count > old(position) then Err(InvalidBitstream) else Ok(())
      ensures position == old(position) - if r.Ok? then count else 0
      ensures Stream() == Upward(data, position)
      ensures r.Ok? ==> Stream()[count..] == old(Stream())
    {
      if count > position {
        return Err(InvalidBitstream);
      }
      UpwardValue(data, position - count, count);
      position := position - count;
      r := Ok(());
    }
  }
}
