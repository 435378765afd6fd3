/**
 * Machine-level vocabulary shared by the model of the JACK output plugin:
 * bytes, the plain `char` of the target ABI, 32-bit two's-complement
 * wrap-around, and the in-memory image of a 32-bit float.
 */
module CTypes {

  /** One byte of a C buffer, as its unsigned value. */
  type Byte = b: int | 0 <= b < 256

  const SizeOfFloat: nat := 4

  const TwoTo31: int := 0x8000_0000
  const TwoTo32: int := 0x1_0000_0000

  datatype Option<+T> = None | Some(value: T)

  /**
   * Value of a byte read through a plain `char` on an ABI where `char` is
   * signed (x86, x86-64): the unique value in [-128, 128) congruent to it.
   */
  function SignedChar(b: Byte): (v: int)
    ensures -128 <= v < 128
    ensures (v - b) % 256 == 0
  {
    if b < 128 then b else b - 256
  }

  /** Byte whose plain-`char` value is `v`: the inverse of SignedChar. */
  function CharByte(v: int): (b: Byte)
    requires -128 <= v < 128
  {
    if v >= 0 then v else v + 256
  }

  lemma SignedCharRoundTrip(b: Byte, v: int)
    requires -128 <= v < 128
    ensures SignedChar(CharByte(v)) == v
    ensures CharByte(SignedChar(b)) == b
  {
  }

  /**
   * Conversion of an unsigned 32-bit value to `int32_t` as two's-complement
   * compilers do it (implementation-defined in C for values >= 2^31).
   */
  function ToInt32(u: int): (v: int)
    requires 0 <= u < TwoTo32
    ensures -TwoTo31 <= v < TwoTo31
    ensures (v - u) % TwoTo32 == 0
  {
    if u < TwoTo31 then u else u - TwoTo32
  }

  /** The four bytes of a 32-bit float as they lie in memory; never interpreted. */
  type Float32 = s: seq<Byte> | |s| == 4 witness [0, 0, 0, 0]

  /** `0.0f`: all four bytes are zero in IEEE 754 single precision. */
  const ZeroFloat: Float32 := [0, 0, 0, 0]

  /** A float buffer seen through a `char *`: the byte images one after another. */
  function FloatBytes(fs: seq<Float32>): (bs: seq<Byte>)
    ensures |bs| == SizeOfFloat * |fs|
    ensures forall i, j :: 0 <= i < |fs| && 0 <= j < 4 ==> bs[4 * i + j] == fs[i][j]
  {
    if fs == [] then [] else fs[0] + FloatBytes(fs[1..])
  }

  lemma {:induction false} FloatBytesAppend(a: seq<Float32>, b: seq<Float32>)
    ensures FloatBytes(a + b) == FloatBytes(a) + FloatBytes(b)
  {
    if a == [] {
      assert a + b == b;
    } else {
      assert (a + b)[1..] == a[1..] + b;
      FloatBytesAppend(a[1..], b);
    }
  }

  /** `n` zero floats, as bytes. */
  function Silence(n: nat): (bs: seq<Byte>)
    ensures |bs| == SizeOfFloat * n
    ensures forall k :: 0 <= k < |bs| ==> bs[k] == 0
  {
    if n == 0 then [] else ZeroFloat + Silence(n - 1)
  }
}
