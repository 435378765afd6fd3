/**
 * deinterleave_frames of ao_jack.c: a buffer of `nframes` frames of
 * `nchannels` samples each (frame-major, "interleaved") is rewritten so that
 * each channel's samples lie one after the other (channel-major).
 */
module Deinterleave {

  /** Multiplying by a natural number preserves `<=`. */
  lemma MulMono(x: nat, y: nat, b: nat)
    ensures x <= y ==> x * b <= y * b
  {
    if x <= y {
      assert y * b == x * b + (y - x) * b;
    }
  }

  /** `c * b + r < a * b` when `c < a` and `r < b`. */
  lemma SlotBound(c: nat, r: nat, a: nat, b: nat)
    requires c < a && r < b
    ensures c * b + r < a * b
  {
    MulMono(c + 1, a, b);
  }

  /** An index below `a * b` is `q * b + r` for a unique `q < a`, `r < b`. */
  lemma Split(k: nat, a: nat, b: nat)
    requires k < a * b
    ensures b > 0 && k / b < a && k % b < b && k == (k / b) * b + k % b
  {
    MulMono(a, k / b, b);
  }

  /** `c * b + r` determines `c` and `r` when `r < b`. */
  lemma SlotUnique(c1: nat, r1: nat, c2: nat, r2: nat, b: nat)
    requires r1 < b && r2 < b && c1 * b + r1 == c2 * b + r2
    ensures c1 == c2 && r1 == r2
  {
    MulMono(c1 + 1, c2, b);
    MulMono(c2 + 1, c1, b);
  }

  /** Position of sample (channel c, frame f) in the channel-major layout. */
  function ChannelMajor(nchannels: nat, nframes: nat, c: nat, f: nat): (k: nat)
    requires c < nchannels && f < nframes
    ensures k < nchannels * nframes
  {
    SlotBound(c, f, nchannels, nframes);
    c * nframes + f
  }

  /** Position of sample (channel c, frame f) in the interleaved layout. */
  function FrameMajor(nchannels: nat, nframes: nat, c: nat, f: nat): (k: nat)
    requires c < nchannels && f < nframes
    ensures k < nchannels * nframes
  {
    SlotBound(f, c, nframes, nchannels);
    assert nframes * nchannels == nchannels * nframes;
    f * nchannels + c
  }

  /** Distinct (channel, frame) pairs have distinct channel-major positions. */
  lemma ChannelMajorInjective(nchannels: nat, nframes: nat)
    ensures forall c1: nat, f1: nat, c2: nat, f2: nat ::
      c1 < nchannels && f1 < nframes && c2 < nchannels && f2 < nframes &&
      ChannelMajor(nchannels, nframes, c1, f1) == ChannelMajor(nchannels, nframes, c2, f2)
      ==> c1 == c2 && f1 == f2
  {
    forall c1: nat, f1: nat, c2: nat, f2: nat |
      c1 < nchannels && f1 < nframes && c2 < nchannels && f2 < nframes &&
      ChannelMajor(nchannels, nframes, c1, f1) == ChannelMajor(nchannels, nframes, c2, f2)
      ensures c1 == c2 && f1 == f2
    {
      SlotUnique(c1, f1, c2, f2, nframes);
    }
  }

  /** The interleaved sample stored at channel-major position k. */
  function DeinterleavedAt<T>(s: seq<T>, nchannels: nat, nframes: nat, k: nat): T
    requires |s| == nchannels * nframes && k < |s|
  {
    Split(k, nchannels, nframes);
    s[FrameMajor(nchannels, nframes, k / nframes, k % nframes)]
  }

  /** The channel-major sample stored at interleaved position k. */
  function InterleavedAt<T>(d: seq<T>, nchannels: nat, nframes: nat, k: nat): T
    requires |d| == nchannels * nframes && k < |d|
  {
    SplitFrames(k, nchannels, nframes);
    d[ChannelMajor(nchannels, nframes, k % nchannels, k / nchannels)]
  }

  /** Split with the factors as the interleaved layout orders them. */
  lemma SplitFrames(k: nat, nchannels: nat, nframes: nat)
    requires k < nchannels * nframes
    ensures nchannels > 0 && k / nchannels < nframes && k % nchannels < nchannels
    ensures k == (k / nchannels) * nchannels + k % nchannels
  {
    assert k < nframes * nchannels;
    Split(k, nframes, nchannels);
  }

  /** InterleavedAt picks sample (c, f) at its interleaved position. */
  lemma InterleavedAtFrameMajor<T>(d: seq<T>, nchannels: nat, nframes: nat, c: nat, f: nat)
    requires |d| == nchannels * nframes && c < nchannels && f < nframes
    ensures InterleavedAt(d, nchannels, nframes, FrameMajor(nchannels, nframes, c, f))
      == d[ChannelMajor(nchannels, nframes, c, f)]
  {
    var k := FrameMajor(nchannels, nframes, c, f);
    SplitFrames(k, nchannels, nframes);
    SlotUnique(f, c, k / nchannels, k % nchannels, nchannels);
  }

  /**
   * The channel-major rearrangement of an interleaved buffer: sample
   * (c, f) moves from position f * nchannels + c to c * nframes + f.
   */
  function Deinterleaved<T>(s: seq<T>, nchannels: nat, nframes: nat): (d: seq<T>)
    requires |s| == nchannels * nframes
    ensures |d| == |s|
    ensures forall c, f :: 0 <= c < nchannels && 0 <= f < nframes ==>
      d[ChannelMajor(nchannels, nframes, c, f)] == s[FrameMajor(nchannels, nframes, c, f)]
  {
    var d := seq(|s|, k requires 0 <= k < |s| => DeinterleavedAt(s, nchannels, nframes, k));
    forall c, f | 0 <= c < nchannels && 0 <= f < nframes
      ensures d[ChannelMajor(nchannels, nframes, c, f)] == s[FrameMajor(nchannels, nframes, c, f)]
    {
      DeinterleavedAtChannelMajor(s, nchannels, nframes, c, f);
    }
    d
  }

  /** DeinterleavedAt picks sample (c, f) at its channel-major position. */
  lemma DeinterleavedAtChannelMajor<T>(s: seq<T>, nchannels: nat, nframes: nat, c: nat, f: nat)
    requires |s| == nchannels * nframes && c < nchannels && f < nframes
    ensures DeinterleavedAt(s, nchannels, nframes, ChannelMajor(nchannels, nframes, c, f))
      == s[FrameMajor(nchannels, nframes, c, f)]
  {
    var k := ChannelMajor(nchannels, nframes, c, f);
    Split(k, nchannels, nframes);
    SlotUnique(c, f, k / nframes, k % nframes, nframes);
  }

  /** The inverse rearrangement: sample (c, f) moves back to f * nchannels + c. */
  function Interleaved<T>(d: seq<T>, nchannels: nat, nframes: nat): (s: seq<T>)
    requires |d| == nchannels * nframes
    ensures |s| == |d|
    ensures forall c, f :: 0 <= c < nchannels && 0 <= f < nframes ==>
      s[FrameMajor(nchannels, nframes, c, f)] == d[ChannelMajor(nchannels, nframes, c, f)]
  {
    var s := seq(|d|, k requires 0 <= k < |d| => InterleavedAt(d, nchannels, nframes, k));
    forall c, f | 0 <= c < nchannels && 0 <= f < nframes
      ensures s[FrameMajor(nchannels, nframes, c, f)] == d[ChannelMajor(nchannels, nframes, c, f)]
    {
      InterleavedAtFrameMajor(d, nchannels, nframes, c, f);
    }
    s
  }

  /** Re-interleaving a deinterleaved buffer restores it exactly. */
  lemma InterleaveDeinterleave<T>(s: seq<T>, nchannels: nat, nframes: nat)
    requires |s| == nchannels * nframes
    ensures Interleaved(Deinterleaved(s, nchannels, nframes), nchannels, nframes) == s
  {
    var r := Interleaved(Deinterleaved(s, nchannels, nframes), nchannels, nframes);
    forall k | 0 <= k < |s| ensures r[k] == s[k] {
      SplitFrames(k, nchannels, nframes);
      var c, f := k % nchannels, k / nchannels;
      assert FrameMajor(nchannels, nframes, c, f) == k;
    }
  }

  /** Deinterleaving a re-interleaved buffer restores it exactly. */
  lemma DeinterleaveInterleave<T>(d: seq<T>, nchannels: nat, nframes: nat)
    requires |d| == nchannels * nframes
    ensures Deinterleaved(Interleaved(d, nchannels, nframes), nchannels, nframes) == d
  {
    var r := Deinterleaved(Interleaved(d, nchannels, nframes), nchannels, nframes);
    forall k | 0 <= k < |d| ensures r[k] == d[k] {
      Split(k, nchannels, nframes);
      var c, f := k / nframes, k % nframes;
      assert ChannelMajor(nchannels, nframes, c, f) == k;
    }
  }

  /** With one channel both layouts coincide, which is why the plugin skips the copy. */
  lemma DeinterleaveOneChannel<T>(s: seq<T>, nframes: nat)
    requires |s| == nframes
    ensures Deinterleaved(s, 1, nframes) == s
  {
    var d := Deinterleaved(s, 1, nframes);
    forall k | 0 <= k < |s| ensures d[k] == s[k] {
      assert ChannelMajor(1, nframes, 0, k) == k;
      assert FrameMajor(1, nframes, 0, k) == k;
    }
  }

  /** Sample (c, f) has a channel-major position no other sample shares. */
  lemma ChannelMajorDistinct(nchannels: nat, nframes: nat, c: nat, f: nat)
    requires c < nchannels && f < nframes
    ensures forall c', g :: 0 <= c' < nchannels && 0 <= g < nframes && (c' != c || g != f) ==>
      ChannelMajor(nchannels, nframes, c', g) != ChannelMajor(nchannels, nframes, c, f)
  {
    forall c', g | 0 <= c' < nchannels && 0 <= g < nframes &&
      ChannelMajor(nchannels, nframes, c', g) == ChannelMajor(nchannels, nframes, c, f)
      ensures c' == c && g == f
    {
      SlotUnique(c', g, c, f, nframes);
    }
  }

  /** Samples (c, g) of frames g < f are in place. */
  ghost predicate FramesDone<T>(nchannels: nat, nframes: nat, source: seq<T>, destination: seq<T>, f: nat)
    requires nchannels * nframes <= |source| && nchannels * nframes <= |destination| && f <= nframes
  {
    forall c, g :: 0 <= c < nchannels && 0 <= g < f ==>
      destination[ChannelMajor(nchannels, nframes, c, g)] == source[FrameMajor(nchannels, nframes, c, g)]
  }

  /**
   * deinterleave_frames: for every frame f and channel c in turn, copies the
   * next source sample to destination[c * nframes + f]. Nothing past
   * nchannels * nframes is written.
   */
  method DeinterleaveFrames<T>(nchannels: nat, nframes: nat, source: array<T>, destination: array<T>)
    requires source != destination
    requires nchannels * nframes <= source.Length && nchannels * nframes <= destination.Length
    modifies destination
    ensures destination[..nchannels * nframes] == Deinterleaved(source[..nchannels * nframes], nchannels, nframes)
    ensures forall k :: nchannels * nframes <= k < destination.Length ==> destination[k] == old(destination[k])
  {
    var i := 0;
    var f := 0;
    while f < nframes
      invariant f <= nframes && i == f * nchannels
      invariant FramesDone(nchannels, nframes, source[..], destination[..], f)
      invariant forall k :: nchannels * nframes <= k < destination.Length ==> destination[k] == old(destination[k])
    {
      i := DeinterleaveFrame(nchannels, nframes, source, destination, f, i);
      f := f + 1;
    }
    var want := Deinterleaved(source[..nchannels * nframes], nchannels, nframes);
    forall k | 0 <= k < nchannels * nframes
      ensures destination[k] == want[k]
    {
      Split(k, nchannels, nframes);
      assert ChannelMajor(nchannels, nframes, k / nframes, k % nframes) == k;
    }
  }

  /**
   * The inner loop of deinterleave_frames for frame f: source samples
   * i.. i + nchannels - 1 go to the channel-major positions of (c, f).
   */
  method DeinterleaveFrame<T>(nchannels: nat, nframes: nat, source: array<T>, destination: array<T>, f: nat, i0: nat)
    returns (i: nat)
    requires source != destination && f < nframes && i0 == f * nchannels
    requires nchannels * nframes <= source.Length && nchannels * nframes <= destination.Length
    requires FramesDone(nchannels, nframes, source[..], destination[..], f)
    modifies destination
    ensures i == (f + 1) * nchannels
    ensures FramesDone(nchannels, nframes, source[..], destination[..], f + 1)
    ensures forall k :: nchannels * nframes <= k < destination.Length ==> destination[k] == old(destination[k])
  {
    i := i0;
    var c := 0;
    while c < nchannels
      invariant c <= nchannels && i == f * nchannels + c
      invariant FramesDone(nchannels, nframes, source[..], destination[..], f)
      invariant forall c' :: 0 <= c' < c ==>
        destination[ChannelMajor(nchannels, nframes, c', f)] == source[FrameMajor(nchannels, nframes, c', f)]
      invariant forall k :: nchannels * nframes <= k < destination.Length ==> destination[k] == old(destination[k])
    {
      assert i == FrameMajor(nchannels, nframes, c, f);
      ChannelMajorDistinct(nchannels, nframes, c, f);
      destination[ChannelMajor(nchannels, nframes, c, f)] := source[i];
      i := i + 1;
      c := c + 1;
    }
  }
}
