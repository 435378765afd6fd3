/**
 * The sample decoders of ao_jack.c: each turns the application's byte
 * buffer into `nvalues` samples. A decoder in the plugin stores
 * `numerator / divisor` as a float; the model stores the integer numerator
 * and keeps the divisor as a named constant, so no floating point is done.
 *
 * The 8-, 16- and 32-bit decoders are modelled as written. The 24-bit
 * decoder is modelled twice: ArrayUint24ToFloat as written (with the
 * defects it has), which play uses, and ArrayInt24ToFloat, the packed
 * little-endian decoder it evidently meant to be.
 */
module SampleFormat {
  import opened CTypes

  const Divisor8: int := 128
  const Divisor16: int := 32768
  const Divisor24: int := 4194304
  const Divisor32: int := 2147483648
  /** Full scale of a signed 24-bit value, 2^23. */
  const Divisor24Intended: int := 8388608

  /*------------------------------------------------------------------
   * Little-endian integers
   *------------------------------------------------------------------*/

  /** `*(sint_16 *)p` on a little-endian machine. */
  function Int16LE(lo: Byte, hi: Byte): (v: int)
    ensures -Divisor16 <= v < Divisor16
    ensures (v - lo - 256 * hi) % 0x1_0000 == 0
  {
    var u := (lo as int) + 256 * hi;
    if u < 0x8000 then u else u - 0x1_0000
  }

  /** The two bytes a little-endian machine stores for the 16-bit value `v`. */
  function Int16Bytes(v: int): (bs: seq<Byte>)
    requires -Divisor16 <= v < Divisor16
    ensures |bs| == 2
  {
    var u := if v >= 0 then v else v + 0x1_0000;
    [u % 256, u / 256]
  }

  lemma Int16RoundTrip(v: int, lo: Byte, hi: Byte)
    requires -Divisor16 <= v < Divisor16
    ensures Int16LE(Int16Bytes(v)[0], Int16Bytes(v)[1]) == v
    ensures Int16Bytes(Int16LE(lo, hi)) == [lo, hi]
  {
  }

  /** The unsigned 32-bit word stored little-endian at byte offset `o`. */
  function UWord(src: seq<Byte>, o: nat): (u: int)
    requires o + 4 <= |src|
    ensures 0 <= u < TwoTo32
  {
    (src[o] as int) + 0x100 * (src[o + 1] as int) + 0x1_0000 * (src[o + 2] as int) + 0x100_0000 * (src[o + 3] as int)
  }

  /** `*(sint_32 *)(src + o)` on a little-endian machine. */
  function Int32LE(src: seq<Byte>, o: nat): (v: int)
    requires o + 4 <= |src|
    ensures -Divisor32 <= v < Divisor32
  {
    ToInt32(UWord(src, o))
  }

  /** Splitting off the low byte: `x == lo + 256 * hi` determines both. */
  lemma LowByte(x: int, lo: int, hi: int)
    requires 0 <= lo < 0x100 && x == lo + 0x100 * hi
    ensures x % 0x100 == lo && x / 0x100 == hi
  {
  }

  /** The four bytes a little-endian machine stores for the 32-bit value `v`. */
  function Int32Bytes(v: int): (bs: seq<Byte>)
    requires -Divisor32 <= v < Divisor32
    ensures |bs| == 4
  {
    var u := if v >= 0 then v else v + TwoTo32;
    var u1 := u / 0x100;
    var u2 := u1 / 0x100;
    [u % 0x100, u1 % 0x100, u2 % 0x100, u2 / 0x100]
  }

  lemma Int32RoundTrip(v: int)
    requires -Divisor32 <= v < Divisor32
    ensures Int32LE(Int32Bytes(v), 0) == v
  {
    var u := if v >= 0 then v else v + TwoTo32;
    var u1 := u / 0x100;
    var u2 := u1 / 0x100;
    LowByte(u, u % 0x100, u1);
    LowByte(u1, u1 % 0x100, u2);
    LowByte(u2, u2 % 0x100, u2 / 0x100);
    assert UWord(Int32Bytes(v), 0) == u;
  }

  lemma Int32Injective(src: seq<Byte>, o: nat)
    requires o + 4 <= |src|
    ensures Int32Bytes(Int32LE(src, o)) == src[o..o + 4]
  {
    var u := UWord(src, o);
    var u1 := (src[o + 1] as int) + 0x100 * (src[o + 2] as int) + 0x1_0000 * (src[o + 3] as int);
    var u2 := (src[o + 2] as int) + 0x100 * (src[o + 3] as int);
    LowByte(u, src[o], u1);
    LowByte(u1, src[o + 1], u2);
    LowByte(u2, src[o + 2], src[o + 3] as int);
  }

  /*------------------------------------------------------------------
   * 8-, 16- and 32-bit decoders (ao_jack.c:216-230, 267-273)
   *------------------------------------------------------------------*/

  /**
   * array_uint8_to_float: sample i is byte i read through a plain `char`,
   * over 128. No bias is removed, and every sample lies in [-1, 1).
   */
  method ArrayUint8ToFloat(src: seq<Byte>, dest: array<int>, nvalues: nat)
    requires nvalues <= |src| && nvalues <= dest.Length
    modifies dest
    ensures forall i :: 0 <= i < nvalues ==> dest[i] == SignedChar(src[i])
    ensures forall i :: 0 <= i < nvalues ==> -Divisor8 <= dest[i] < Divisor8
    ensures forall i :: nvalues <= i < dest.Length ==> dest[i] == old(dest[i])
  {
    var i := 0;
    while i < nvalues
      invariant i <= nvalues
      invariant forall k :: 0 <= k < i ==> dest[k] == SignedChar(src[k])
      invariant forall k :: i <= k < dest.Length ==> dest[k] == old(dest[k])
    {
      dest[i] := SignedChar(src[i]);
      i := i + 1;
    }
  }

  /** array_uint16_to_float: sample i is the signed little-endian value of bytes [2i, 2i+2). */
  method ArrayUint16ToFloat(src: seq<Byte>, dest: array<int>, nvalues: nat)
    requires 2 * nvalues <= |src| && nvalues <= dest.Length
    modifies dest
    ensures forall i :: 0 <= i < nvalues ==> dest[i] == Int16LE(src[2 * i], src[2 * i + 1])
    ensures forall i :: nvalues <= i < dest.Length ==> dest[i] == old(dest[i])
  {
    var i := 0;
    while i < nvalues
      invariant i <= nvalues
      invariant forall k :: 0 <= k < i ==> dest[k] == Int16LE(src[2 * k], src[2 * k + 1])
      invariant forall k :: i <= k < dest.Length ==> dest[k] == old(dest[k])
    {
      dest[i] := Int16LE(src[2 * i], src[2 * i + 1]);
      i := i + 1;
    }
  }

  /** array_uint32_to_float: sample i is the signed little-endian value of bytes [4i, 4i+4). */
  method ArrayUint32ToFloat(src: seq<Byte>, dest: array<int>, nvalues: nat)
    requires 4 * nvalues <= |src| && nvalues <= dest.Length
    modifies dest
    ensures forall i :: 0 <= i < nvalues ==> dest[i] == Int32LE(src, 4 * i)
    ensures forall i :: nvalues <= i < dest.Length ==> dest[i] == old(dest[i])
  {
    var i := 0;
    while i < nvalues
      invariant i <= nvalues
      invariant forall k :: 0 <= k < i ==> dest[k] == Int32LE(src, 4 * k)
      invariant forall k :: i <= k < dest.Length ==> dest[k] == old(dest[k])
    {
      dest[i] := Int32LE(src, 4 * i);
      i := i + 1;
    }
  }

  /*------------------------------------------------------------------
   * int24_to_float as written (ao_jack.c:232-238)
   *------------------------------------------------------------------*/

  /** The threshold the plugin uses for the sign of a 24-bit value: 2^22. */
  const Max24: int := 4194304

  /** `x ^ 0xFFFFFF` for a non-negative `x`: the low 24 bits flipped. */
  function Flip24(x: nat): nat
  {
    x / 0x100_0000 * 0x100_0000 + (0xFF_FFFF - x % 0x100_0000)
  }

  /**
   * Numerator of int24_to_float(val); the divisor is Divisor24 (2^22).
   * Values from 2^22 up are treated as negative, so a 24-bit value in
   * [2^22, 2^23) comes out below -2 full scales.
   */
  function Int24ToFloat(val: int): (n: int)
    requires -TwoTo31 <= val < TwoTo31
    ensures 0 <= val < Max24 ==> n == val
    ensures Max24 <= val < 0x100_0000 ==> n == val - 0x100_0000
    ensures val < 0 ==> n == val
  {
    if val >= Max24 then -(Flip24(val - 1) as int) else val
  }

  /** The positive 24-bit value 2^22 decodes to -3.0 (numerator -3 * 2^22). */
  lemma Int24ThresholdTooLow()
    ensures Int24ToFloat(0x40_0000) == -3 * Divisor24
    ensures Int24ToFloat(0x3F_FFFF) == Divisor24 - 1
  {
  }

  /*------------------------------------------------------------------
   * array_uint24_to_float as written (ao_jack.c:240-265)
   *------------------------------------------------------------------*/

  /**
   * Bytes array_uint24_to_float reads for `nvalues` samples: each group of
   * four samples reads three words but steps the word pointer by four, and
   * the tail is read three bytes per sample from where the pointer stopped.
   */
  function ReadExtent24(nvalues: nat): nat
  {
    var groups := nvalues / 4;
    var tail := nvalues % 4;
    if tail > 0 then 16 * groups + 3 * tail
    else if groups > 0 then 16 * groups - 4
    else 0
  }

  /** Reads stay within 3 * nvalues bytes only for fewer than five samples. */
  lemma ReadExtent24Overruns(nvalues: nat)
    ensures ReadExtent24(nvalues) > 3 * nvalues <==> nvalues >= 5
  {
    var groups := nvalues / 4;
    var tail := nvalues % 4;
    assert nvalues == 4 * groups + tail;
  }

  /** Sample 4k of a group: bits 8..31 of the first word. */
  function Group24First(src: seq<Byte>, o: nat): int
    requires o + 12 <= |src|
  {
    Int24ToFloat(UWord(src, o) / 0x100)
  }

  /** Sample 4k+1 of a group: low byte of the first word over the high half of the second. */
  function Group24Second(src: seq<Byte>, o: nat): int
    requires o + 12 <= |src|
  {
    Int24ToFloat(src[o] * 0x1_0000 + UWord(src, o + 4) / 0x1_0000)
  }

  /**
   * The value first stored at 4k+2 and then overwritten. `(b & 0xFFFF) << 16`
   * can overflow a signed int (undefined in C); modelled as two's-complement wrap.
   */
  function Group24ThirdOverwritten(src: seq<Byte>, o: nat): int
    requires o + 12 <= |src|
  {
    Int24ToFloat(ToInt32(UWord(src, o + 4) % 0x1_0000 * 0x1_0000 + UWord(src, o + 8) / 0x100_0000))
  }

  /** Sample 4k+2 as finally stored: the low 24 bits of the third word. */
  function Group24Third(src: seq<Byte>, o: nat): int
    requires o + 12 <= |src|
  {
    Int24ToFloat(UWord(src, o + 8) % 0x100_0000)
  }

  /** `(uint_32)*q`: a plain (signed) char widened to 32 bits. */
  function CharAsUInt32(c: bv8): bv32
  {
    if c < 128 then c as bv32 else (c as bv32) | 0xFFFF_FF00
  }

  /** The tail's combination of three bytes, with `&` where `|` was meant. */
  function TailWord(c0: bv8, c1: bv8, c2: bv8): bv32
  {
    (CharAsUInt32(c0) << 16) & (CharAsUInt32(c1) << 8) & CharAsUInt32(c2)
  }

  /**
   * With `&`, the three shifted bytes share no set bit unless the second and
   * third bytes both have their sign bit set; only then is anything left.
   */
  lemma TailAndCollapses(c0: bv8, c1: bv8, c2: bv8)
    ensures TailWord(c0, c1, c2) == if c1 >= 128 && c2 >= 128 then CharAsUInt32(c0) << 16 else 0
  {
  }

  lemma ShiftedCharValue(c: bv8)
    ensures (CharAsUInt32(c) << 16) as int ==
      if c < 128 then (c as int) * 0x1_0000 else (c as int) * 0x1_0000 + 0xFF00_0000
  {
  }

  lemma TailWordValue(c0: bv8, c1: bv8, c2: bv8)
    ensures TailWord(c0, c1, c2) as int ==
      if c1 >= 128 && c2 >= 128 then
        (if c0 < 128 then (c0 as int) * 0x1_0000 else (c0 as int) * 0x1_0000 + 0xFF00_0000)
      else 0
  {
    TailAndCollapses(c0, c1, c2);
    ShiftedCharValue(c0);
  }

  lemma ByteBits(b: Byte)
    ensures (b as bv8) as int == b
    ensures (b as bv8 < 128) == (b < 128)
  {
  }

  /**
   * The `int32_t` a tail sample's bytes produce, in integer terms: the first
   * byte's `char` value shifted into bits 16..23 when the second and third
   * bytes are both negative as `char`s, and zero otherwise.
   */
  function TailArg(b0: Byte, b1: Byte, b2: Byte): (v: int)
    ensures -TwoTo31 <= v < TwoTo31
  {
    if b1 >= 128 && b2 >= 128 then SignedChar(b0) * 0x1_0000 else 0
  }

  /** TailArg is the value of the tail's C expression, TailWord, read as `int32_t`. */
  lemma TailArgIsTailWord(b0: Byte, b1: Byte, b2: Byte)
    ensures ToInt32(TailWord(b0 as bv8, b1 as bv8, b2 as bv8) as int) == TailArg(b0, b1, b2)
  {
    TailWordValue(b0 as bv8, b1 as bv8, b2 as bv8);
    ByteBits(b0);
    ByteBits(b1);
    ByteBits(b2);
  }

  /** Numerator for a tail sample read three bytes from byte offset `o`. */
  function Tail24(src: seq<Byte>, o: nat): int
    requires o + 3 <= |src|
  {
    Int24ToFloat(TailArg(src[o], src[o + 1], src[o + 2]))
  }

  /**
   * A tail sample is zero unless its second and third bytes are both >= 128
   * and its first byte is not zero: most tail samples are lost.
   */
  lemma TailSampleIsZero(src: seq<Byte>, o: nat)
    requires o + 3 <= |src|
    ensures Tail24(src, o) == 0 <==> src[o + 1] < 128 || src[o + 2] < 128 || src[o] == 0
  {
  }

  /**
   * What the group loop leaves in dest[..4g]: per group of four samples, the
   * first three decoded from three words at byte offset 16k and the fourth
   * untouched.
   */
  function Groups24(src: seq<Byte>, g: nat, before: seq<int>): (r: seq<int>)
    requires g > 0 ==> 16 * g - 4 <= |src|
    requires 4 * g <= |before|
    ensures |r| == 4 * g
  {
    if g == 0 then []
    else
      var o := 16 * (g - 1);
      Groups24(src, g - 1, before)
        + [Group24First(src, o), Group24Second(src, o), Group24Third(src, o), before[4 * g - 1]]
  }

  /** The 1..3 tail samples, read three bytes apiece from byte offset `q`. */
  function Tail24s(src: seq<Byte>, q: nat, t: nat): (r: seq<int>)
    requires t < 4 && (t > 0 ==> q + 3 * t <= |src|)
    ensures |r| == t
  {
    if t == 0 then []
    else if t == 1 then [Tail24(src, q)]
    else if t == 2 then [Tail24(src, q), Tail24(src, q + 3)]
    else [Tail24(src, q), Tail24(src, q + 3), Tail24(src, q + 6)]
  }

  /** The whole of dest after array_uint24_to_float, given its contents `before`. */
  function Uint24AsWritten(src: seq<Byte>, nvalues: nat, before: seq<int>): (r: seq<int>)
    requires ReadExtent24(nvalues) <= |src| && nvalues <= |before|
    ensures |r| == |before|
  {
    var g := nvalues / 4;
    assert nvalues == 4 * g + nvalues % 4;
    Groups24(src, g, before) + Tail24s(src, 16 * g, nvalues % 4) + before[nvalues..]
  }

  /**
   * Sample 4k+3 of every complete group keeps whatever dest held, while
   * 4k, 4k+1 and 4k+2 come from the three words at byte offset 16k.
   */
  lemma {:induction false} Groups24At(src: seq<Byte>, g: nat, before: seq<int>, k: nat)
    requires g > 0 ==> 16 * g - 4 <= |src|
    requires 4 * g <= |before| && k < g
    ensures Groups24(src, g, before)[4 * k] == Group24First(src, 16 * k)
    ensures Groups24(src, g, before)[4 * k + 1] == Group24Second(src, 16 * k)
    ensures Groups24(src, g, before)[4 * k + 2] == Group24Third(src, 16 * k)
    ensures Groups24(src, g, before)[4 * k + 3] == before[4 * k + 3]
  {
    if k < g - 1 {
      Groups24At(src, g - 1, before, k);
    }
  }

  /**
   * Every complete group leaves its fourth slot as it was: a quarter of the
   * samples of a buffer of four or more is never decoded.
   */
  lemma Uint24SkipsFourthSample(src: seq<Byte>, nvalues: nat, before: seq<int>, k: nat)
    requires ReadExtent24(nvalues) <= |src| && nvalues <= |before|
    requires k < nvalues / 4
    ensures Uint24AsWritten(src, nvalues, before)[4 * k + 3] == before[4 * k + 3]
  {
    Uint24Parts(src, nvalues, before, nvalues / 4, nvalues - 4 * (nvalues / 4));
    Groups24At(src, nvalues / 4, before, k);
  }

  /**
   * Even the first sample is misread: it is taken from bytes 1..3, so a
   * buffer whose first packed sample is 1 decodes to 0 there.
   */
  lemma Uint24MisreadsFirstSample()
    ensures Int24LE(1, 0, 0) == 1
    ensures Uint24AsWritten([1, 0, 0, 0, 0, 0, 0, 0, 0, 0, 0, 0], 4, [0, 0, 0, 0])[0] == 0
  {
    var src: seq<Byte> := [1, 0, 0, 0, 0, 0, 0, 0, 0, 0, 0, 0];
    Uint24Parts(src, 4, [0, 0, 0, 0], 1, 0);
    Groups24At(src, 1, [0, 0, 0, 0], 0);
    assert UWord(src, 0) == 1;
  }

  /** How Uint24AsWritten splits at the last complete group. */
  lemma Uint24Parts(src: seq<Byte>, nvalues: nat, before: seq<int>, groups: nat, tail: nat)
    requires ReadExtent24(nvalues) <= |src| && nvalues <= |before|
    requires groups == nvalues / 4 && tail == nvalues - 4 * groups
    ensures tail < 4 && tail == nvalues % 4
    ensures groups > 0 ==> 16 * groups - 4 <= |src|
    ensures tail > 0 ==> 16 * groups + 3 * tail <= |src|
    ensures Uint24AsWritten(src, nvalues, before)
      == Groups24(src, groups, before) + Tail24s(src, 16 * groups, tail) + before[4 * groups + tail..]
  {
  }

  /** A sequence that agrees slot by slot with three parts is their concatenation. */
  lemma Uint24Assemble(groups: seq<int>, tail: seq<int>, before: seq<int>, d: seq<int>)
    requires |groups| + |tail| <= |before| == |d|
    requires forall k :: 0 <= k < |groups| ==> d[k] == groups[k]
    requires d[|groups|..|groups| + |tail|] == tail
    requires forall k :: |groups| + |tail| <= k < |d| ==> d[k] == before[k]
    ensures d == groups + tail + before[|groups| + |tail|..]
  {
    var r := groups + tail + before[|groups| + |tail|..];
    forall k | 0 <= k < |d| ensures d[k] == r[k] {
      if |groups| <= k < |groups| + |tail| {
        assert d[k] == d[|groups|..|groups| + |tail|][k - |groups|];
      }
    }
  }

  /**
   * One pass of the group loop: samples i, i+1 and i+2 from the three words
   * at byte offset p, the third stored twice, slot i+3 left alone.
   */
  method StoreGroup24(src: seq<Byte>, p: nat, dest: array<int>, i: nat)
    requires p + 12 <= |src| && i + 3 <= dest.Length
    modifies dest
    ensures dest[i] == Group24First(src, p)
    ensures dest[i + 1] == Group24Second(src, p)
    ensures dest[i + 2] == Group24Third(src, p)
    ensures forall k :: 0 <= k < dest.Length && (k < i || i + 3 <= k) ==> dest[k] == old(dest[k])
  {
    dest[i] := Group24First(src, p);
    dest[i + 1] := Group24Second(src, p);
    dest[i + 2] := Group24ThirdOverwritten(src, p);
    dest[i + 2] := Group24Third(src, p);
  }

  /**
   * The group loop: `groups` passes, pass g decoding from byte offset 16g
   * into slots 4g..4g+2; the word pointer ends at byte 16 * groups.
   */
  method StoreGroups24(src: seq<Byte>, dest: array<int>, groups: nat) returns (p: nat)
    requires groups > 0 ==> 16 * groups - 4 <= |src|
    requires 4 * groups <= dest.Length
    modifies dest
    ensures p == 16 * groups
    ensures forall k :: 0 <= k < 4 * groups ==> dest[k] == Groups24(src, groups, old(dest[..]))[k]
    ensures forall k :: 4 * groups <= k < dest.Length ==> dest[k] == old(dest[k])
  {
    ghost var before := dest[..];
    ghost var want := Groups24(src, groups, before);
    var nvalues4 := groups * 4;
    var i := 0;
    p := 0;
    ghost var m := 0;
    while i < nvalues4
      invariant m <= groups && i == 4 * m && p == 16 * m
      invariant forall k :: 0 <= k < i ==> dest[k] == want[k]
      invariant forall k :: i <= k < dest.Length ==> dest[k] == before[k]
    {
      Groups24At(src, groups, before, m);
      StoreGroup24(src, p, dest, i);
      i, p, m := i + 4, p + 16, m + 1;
    }
  }

  /**
   * The 1..3 samples after the last complete group, at dest[i..n], read
   * three bytes apiece from byte offset q.
   */
  method StoreTail24(src: seq<Byte>, q: nat, dest: array<int>, i: nat, n: nat)
    requires i <= n < i + 4 && n <= dest.Length && (i < n ==> q + 3 * (n - i) <= |src|)
    modifies dest
    ensures dest[i..n] == Tail24s(src, q, n - i)
    ensures forall k :: 0 <= k < dest.Length && (k < i || n <= k) ==> dest[k] == old(dest[k])
  {
    ghost var tail := Tail24s(src, q, n - i);
    if i + 1 <= n {
      dest[i] := Tail24(src, q);
      if i + 2 <= n {
        dest[i + 1] := Tail24(src, q + 3);
        if i + 3 <= n {
          dest[i + 2] := Tail24(src, q + 6);
          assert dest[i + 2] == tail[2];
        }
        assert dest[i + 1] == tail[1];
      }
      assert dest[i] == tail[0];
    }
  }

  /**
   * array_uint24_to_float, as written: for each group of four samples it
   * stores samples 4k, 4k+1 and 4k+2 (the last one twice) and never 4k+3,
   * and steps 16 bytes for the 12 it reads; the remaining 1..3 samples come
   * from the tail combination.
   */
  method ArrayUint24ToFloat(src: seq<Byte>, dest: array<int>, nvalues: nat)
    requires ReadExtent24(nvalues) <= |src| && nvalues <= dest.Length
    modifies dest
    ensures dest[..] == Uint24AsWritten(src, nvalues, old(dest[..]))
  {
    ghost var before := dest[..];
    var groups := nvalues / 4;
    var nvalues4 := groups * 4;
    Uint24Parts(src, nvalues, before, groups, nvalues - nvalues4);
    var p := StoreGroups24(src, dest, groups);  // p: the word pointer, as a byte offset
    StoreTail24(src, p, dest, nvalues4, nvalues);
    Uint24Assemble(Groups24(src, groups, before), Tail24s(src, p, nvalues - nvalues4), before, dest[..]);
  }

  /*------------------------------------------------------------------
   * The packed 24-bit decoder the plugin evidently meant
   *------------------------------------------------------------------*/

  /** Signed 24-bit little-endian value of three bytes, sign bit 2^23. */
  function Int24LE(b0: Byte, b1: Byte, b2: Byte): (v: int)
    ensures -Divisor24Intended <= v < Divisor24Intended
    ensures (v - b0 - 0x100 * b1 - 0x1_0000 * b2) % 0x100_0000 == 0
  {
    var u := (b0 as int) + 0x100 * b1 + 0x1_0000 * b2;
    if u < 0x80_0000 then u else u - 0x100_0000
  }

  /** The three bytes of the packed little-endian encoding of `v`. */
  function Int24Bytes(v: int): (bs: seq<Byte>)
    requires -Divisor24Intended <= v < Divisor24Intended
    ensures |bs| == 3
  {
    var u := if v >= 0 then v else v + 0x100_0000;
    var u1 := u / 0x100;
    [u % 0x100, u1 % 0x100, u1 / 0x100]
  }

  lemma Int24RoundTrip(v: int, b0: Byte, b1: Byte, b2: Byte)
    requires -Divisor24Intended <= v < Divisor24Intended
    ensures Int24LE(Int24Bytes(v)[0], Int24Bytes(v)[1], Int24Bytes(v)[2]) == v
    ensures Int24Bytes(Int24LE(b0, b1, b2)) == [b0, b1, b2]
  {
    var w := if v >= 0 then v else v + 0x100_0000;
    LowByte(w, w % 0x100, w / 0x100);
    LowByte(w / 0x100, w / 0x100 % 0x100, w / 0x100 / 0x100);
    var u := (b0 as int) + 0x100 * b1 + 0x1_0000 * b2;
    LowByte(u, b0, (b1 as int) + 0x100 * b2);
    LowByte((b1 as int) + 0x100 * b2, b1, b2);
  }

  /**
   * Packed 24-bit decoder: sample i is the signed little-endian value of
   * bytes [3i, 3i+3); it never reads past 3 * nvalues bytes.
   */
  method ArrayInt24ToFloat(src: seq<Byte>, dest: array<int>, nvalues: nat)
    requires 3 * nvalues <= |src| && nvalues <= dest.Length
    modifies dest
    ensures forall i :: 0 <= i < nvalues ==> dest[i] == Int24LE(src[3 * i], src[3 * i + 1], src[3 * i + 2])
    ensures forall i :: nvalues <= i < dest.Length ==> dest[i] == old(dest[i])
  {
    var i := 0;
    while i < nvalues
      invariant i <= nvalues
      invariant forall k :: 0 <= k < i ==> dest[k] == Int24LE(src[3 * k], src[3 * k + 1], src[3 * k + 2])
      invariant forall k :: i <= k < dest.Length ==> dest[k] == old(dest[k])
    {
      dest[i] := Int24LE(src[3 * i], src[3 * i + 1], src[3 * i + 2]);
      i := i + 1;
    }
  }
}
