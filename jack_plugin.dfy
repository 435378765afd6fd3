/**
 * The data path of the JACK output plugin (ao_jack.c): play decodes a
 * buffer into samples and cuts it into chunks for the resampler; the
 * resampler's callback deinterleaves frames and the producer pushes each
 * channel into its ring; JACK's process callback, the consumer, drains every
 * ring into its port buffer once per period.
 *
 * Concurrency is modelled by interleaving: the producer loop consumes one
 * `Turn` of a schedule per pass, and between passes the JACK thread runs
 * the process periods and the shutdown the turn lists.
 */
module JackPlugin {
  import opened CTypes
  import opened Ring
  import opened SampleFormat
  import Deinterleave
  import Options
  import Resample

  /** INPUT_BUFFER_SIZE: bytes requested for each channel's ring. */
  const InputBufferSize: nat := 10 * 1024 * 4

  /*------------------------------------------------------------------
   * Producer arithmetic
   *------------------------------------------------------------------*/

  /** The smallest write space among rings 0..n-1, found as the producer's scan finds it. */
  function MinWriteSpace(rings: seq<Ring>, n: nat): nat
    requires 1 <= n <= |rings|
  {
    if n == 1 then WriteSpace(rings[0])
    else
      var m := MinWriteSpace(rings, n - 1);
      if WriteSpace(rings[n - 1]) < m then WriteSpace(rings[n - 1]) else m
  }

  /** The scan's result is the write space of one of the rings and at most that of every other. */
  lemma {:induction false} MinWriteSpaceIsMinimum(rings: seq<Ring>, n: nat)
    requires 1 <= n <= |rings|
    ensures forall i :: 0 <= i < n ==> MinWriteSpace(rings, n) <= WriteSpace(rings[i])
    ensures exists i :: 0 <= i < n && MinWriteSpace(rings, n) == WriteSpace(rings[i])
  {
    if n > 1 {
      MinWriteSpaceIsMinimum(rings, n - 1);
      var i :| 0 <= i < n - 1 && MinWriteSpace(rings, n - 1) == WriteSpace(rings[i]);
      if WriteSpace(rings[n - 1]) < MinWriteSpace(rings, n - 1) {
        assert MinWriteSpace(rings, n) == WriteSpace(rings[n - 1]);
      } else {
        assert MinWriteSpace(rings, n) == WriteSpace(rings[i]);
      }
    }
  }

  /** Bytes the producer writes to each channel in one pass. */
  function Available(rings: seq<Ring>, nchannels: nat, pending: nat): nat
    requires 1 <= nchannels <= |rings|
  {
    Min(MinWriteSpace(rings, nchannels), pending)
  }

  /**
   * Every ring takes the whole amount a pass offers, so the producer's
   * "written2 != written" error return can never be taken.
   */
  lemma PassNeverMismatches(rings: seq<Ring>, nchannels: nat, pending: nat, c: nat)
    requires 1 <= nchannels <= |rings| && c < nchannels
    ensures Accepted(rings[c], Available(rings, nchannels, pending)) == Available(rings, nchannels, pending)
    ensures Available(rings, nchannels, pending) <= pending
    ensures Available(rings, nchannels, pending) == 0 <==>
      pending == 0 || exists i :: 0 <= i < nchannels && WriteSpace(rings[i]) == 0
  {
    MinWriteSpaceIsMinimum(rings, nchannels);
  }

  /** Rings whose capacity and content are whole samples. */
  predicate SampleAligned(rings: seq<Ring>, n: nat)
    requires n <= |rings|
  {
    forall i :: 0 <= i < n ==> rings[i].capacity % 4 == 0 && |rings[i].content| % 4 == 0
  }

  /** With sample-aligned rings and a whole number of pending samples, a pass moves whole samples. */
  lemma {:induction false} AvailableAligned(rings: seq<Ring>, nchannels: nat, pending: nat)
    requires 1 <= nchannels <= |rings| && SampleAligned(rings, nchannels) && pending % 4 == 0
    ensures Available(rings, nchannels, pending) % 4 == 0
  {
    MinWriteSpaceAligned(rings, nchannels);
  }

  lemma {:induction false} MinWriteSpaceAligned(rings: seq<Ring>, n: nat)
    requires 1 <= n <= |rings| && SampleAligned(rings, n)
    ensures MinWriteSpace(rings, n) % 4 == 0
  {
    SpaceAligned(rings[n - 1]);
    if n > 1 {
      MinWriteSpaceAligned(rings, n - 1);
    } else {
      SpaceAligned(rings[0]);
    }
  }

  /** A ring holding whole samples in a whole-sample capacity has room for whole samples. */
  lemma SpaceAligned(r: Ring)
    requires r.capacity % 4 == 0 && |r.content| % 4 == 0
    ensures WriteSpace(r) % 4 == 0
  {
    assert WriteSpace(r) == 4 * (r.capacity / 4 - |r.content| / 4);
  }

  /**
   * Neither side rounds to whole samples: a ring whose write space is not a
   * multiple of four (65535 bytes is what a 2^16-byte JACK ring offers
   * empty) receives part of a sample.
   */
  lemma PassSplitsSample()
    ensures Available([RingBuffer(65535, [])], 1, 65536) == 65535
    ensures 65535 % 4 != 0
  {
  }

  lemma ChannelFits(c: nat, nchannels: nat, channelSize: nat)
    requires c < nchannels
    ensures c * channelSize + channelSize <= nchannels * channelSize
  {
    Deinterleave.MulMono(c + 1, nchannels, channelSize);
  }

  /**
   * The deinterleaved buffer as the producer walks it: block c is the
   * channel_size bytes starting at c * channel_size.
   */
  function Blocks(data: seq<Byte>, nchannels: nat, channelSize: nat): (blocks: seq<seq<Byte>>)
    requires nchannels * channelSize <= |data|
    ensures |blocks| == nchannels
    ensures forall c :: 0 <= c < nchannels ==> blocks[c] == Block(data, nchannels, channelSize, c)
  {
    seq(nchannels, c requires 0 <= c < nchannels => Block(data, nchannels, channelSize, c))
  }

  /** Block c of the deinterleaved buffer: channel_size bytes from c * channel_size on. */
  function Block(data: seq<Byte>, nchannels: nat, channelSize: nat, c: nat): (block: seq<Byte>)
    requires nchannels * channelSize <= |data| && c < nchannels
    ensures |block| == channelSize
  {
    ChannelFits(c, nchannels, channelSize);
    data[c * channelSize..c * channelSize + channelSize]
  }

  /** nchannels blocks of channelSize bytes each. */
  predicate BlocksOf(blocks: seq<seq<Byte>>, nchannels: nat, channelSize: nat)
  {
    |blocks| == nchannels && forall c :: 0 <= c < nchannels ==> |blocks[c]| == channelSize
  }

  /*------------------------------------------------------------------
   * Consumer arithmetic
   *------------------------------------------------------------------*/

  /**
   * Bytes the consumer asks of a ring, as written: everything available
   * unless more than nframes whole samples are available.
   */
  function PossibleBytesAsWritten(available: nat, nframes: nat): nat
  {
    if available / 4 > nframes then 4 * nframes else available
  }

  /** Bytes the consumer evidently means to ask for: at most the port buffer's size. */
  function PossibleBytes(available: nat, nframes: nat): (n: nat)
    ensures n <= available && n <= 4 * nframes
    ensures n == available || n == 4 * nframes
  {
    Min(available, 4 * nframes)
  }

  /**
   * As written, the read overruns the nframes-sample port buffer exactly
   * when nframes whole samples and a partial one are available; otherwise
   * it agrees with the bounded count.
   */
  lemma ConsumerOverrunsPortBuffer(available: nat, nframes: nat)
    ensures PossibleBytesAsWritten(available, nframes) > 4 * nframes <==>
      available / 4 == nframes && available % 4 != 0
    ensures PossibleBytesAsWritten(available, nframes) <= 4 * nframes ==>
      PossibleBytesAsWritten(available, nframes) == PossibleBytes(available, nframes)
    ensures PossibleBytesAsWritten(4 * nframes + 3, nframes) == 4 * nframes + 3
  {
  }

  /**
   * The port buffer after one period: the whole samples read from the
   * ring, then silence up to nframes samples. Bytes of a partial sample
   * that were read are overwritten by the silence.
   */
  function PortBuffer(content: seq<Byte>, nframes: nat): (out: seq<Byte>)
    ensures |out| == 4 * nframes
  {
    var readFrames := PossibleBytes(|content|, nframes) / 4;
    content[..4 * readFrames] + Silence(nframes - readFrames)
  }

  /** What the port plays: the oldest whole samples of the ring, then zeros. */
  lemma PortBufferContents(content: seq<Byte>, nframes: nat)
    ensures var readFrames := PossibleBytes(|content|, nframes) / 4;
      (forall j :: 0 <= j < 4 * readFrames ==> PortBuffer(content, nframes)[j] == content[j]) &&
      (forall j :: 4 * readFrames <= j < 4 * nframes ==> PortBuffer(content, nframes)[j] == 0)
  {
  }

  /** When a whole number of samples is read, every byte read is played. */
  lemma AlignedReadIsPlayed(r: Ring, nframes: nat)
    requires PossibleBytes(ReadSpace(r), nframes) % 4 == 0
    ensures PortBuffer(r.content, nframes)[..PossibleBytes(ReadSpace(r), nframes)]
      == ReadBytes(r, PossibleBytes(ReadSpace(r), nframes))
  {
  }

  /**
   * The as-written request reads the same whole samples as the bounded
   * one: the bytes it takes beyond the port buffer never make a sample.
   */
  lemma AsWrittenReadsSameSamples(available: nat, nframes: nat)
    ensures PossibleBytesAsWritten(available, nframes) / 4 == PossibleBytes(available, nframes) / 4
  {
    ConsumerOverrunsPortBuffer(available, nframes);
  }

  /**
   * One port of on_jack_hungry: reads the bytes the request asks for as
   * written from the ring into the port buffer, then zero-fills it from
   * the first sample that was not read whole. The bytes of an overrunning
   * read that fall past the buffer are not kept.
   */
  method FillPort(r: Ring, nframes: nat) returns (out: seq<Byte>)
    ensures out == PortBuffer(r.content, nframes)
  {
    var buffer := new Byte[4 * nframes];
    var possibleBytes := PossibleBytesAsWritten(ReadSpace(r), nframes);
    var read := ReadBytes(r, possibleBytes);
    AsWrittenReadsSameSamples(ReadSpace(r), nframes);
    forall j | 0 <= j < |read| && j < 4 * nframes {
      buffer[j] := read[j];
    }
    var readFrames := |read| / 4;
    var f := readFrames;
    while f < nframes
      invariant readFrames <= f <= nframes
      invariant forall j :: 0 <= j < 4 * readFrames ==> buffer[j] == r.content[j]
      invariant forall j :: 4 * readFrames <= j < 4 * f ==> buffer[j] == 0
    {
      forall j | 4 * f <= j < 4 * f + 4 {
        buffer[j] := 0;
      }
      f := f + 1;
    }
    out := buffer[..];
    PortBufferContents(r.content, nframes);
  }

  /** A partial sample is taken out of the ring but never played. */
  lemma PartialSampleIsLost()
    ensures ReadBytes(RingBuffer(8, [1, 2, 3, 4, 5]), PossibleBytesAsWritten(5, 2)) == [1, 2, 3, 4, 5]
    ensures AfterRead(RingBuffer(8, [1, 2, 3, 4, 5]), PossibleBytesAsWritten(5, 2)).content == []
    ensures PortBuffer([1, 2, 3, 4, 5], 2) == [1, 2, 3, 4, 0, 0, 0, 0]
  {
    assert Silence(1) == [0, 0, 0, 0];
  }

  /*------------------------------------------------------------------
   * play arithmetic
   *------------------------------------------------------------------*/

  /** nvalues: num_bytes * 8 is computed in 32 bits, then divided by the sample width. */
  function NValues(numBytes: nat, bits: nat): nat
    requires bits > 0
  {
    (numBytes * 8) % TwoTo32 / bits
  }

  /** The 32-bit product wraps for buffers of 512 MiB and more. */
  lemma NValuesWraps()
    ensures NValues(0x2000_0000, 16) == 0
    ensures NValues(0x1FFF_FFFF, 16) == 0x0FFF_FFFF
  {
  }

  /** max_input_frames: half the input ring, in frames, scaled by the rate ratio. */
  function MaxInputFrames(nchannels: nat, inputRate: nat, outputRate: nat): nat
    requires nchannels > 0 && outputRate > 0
  {
    var framesInRing: nat := InputBufferSize / (4 * nchannels);
    var scaled: nat := framesInRing * inputRate;
    scaled / outputRate / 2
  }

  /** The decoder as written stores nvalues samples into a buffer of nchannels * nframes. */
  lemma PlayDecoderOverrunsBuffer()
    ensures NValues(6, 16) == 3
    ensures 2 * (NValues(6, 16) / 2) == 2
  {
  }

  /** Sample i of the buffer lies inside it, for the widths play supports. */
  predicate SampleInRange(bits: nat, src: seq<Byte>, i: nat)
  {
    if bits == 8 then i < |src|
    else if bits == 16 then 2 * i + 2 <= |src|
    else 4 * i + 4 <= |src|
  }

  /** The value sample i decodes to, for the widths play supports. */
  function DecodedSample(bits: nat, src: seq<Byte>, i: nat): int
    requires SampleInRange(bits, src, i)
  {
    if bits == 8 then SignedChar(src[i])
    else if bits == 16 then Int16LE(src[2 * i], src[2 * i + 1])
    else Int32LE(src, 4 * i)
  }

  /**
   * One aojack_resample_frames call of play: its first frame (the data
   * pointer is that many frames, of nchannels samples, into the buffer)
   * and its frame count.
   */
  datatype Chunk = Chunk(firstFrame: nat, nframes: nat)

  /** The chunks play hands to the resampler, from frame i on. */
  function Chunks(nframes: nat, maxFrames: nat, i: nat): seq<Chunk>
    requires maxFrames > 0
    decreases nframes - i
  {
    if i >= nframes then []
    else [Chunk(i, Min(maxFrames, nframes - i))] + Chunks(nframes, maxFrames, i + maxFrames)
  }

  function SumFrames(cs: seq<Chunk>): nat
  {
    if cs == [] then 0 else cs[0].nframes + SumFrames(cs[1..])
  }

  /**
   * The chunks tile frames i..nframes-1 in order: each starts where the
   * previous one ended, none is empty or longer than maxFrames, and their
   * lengths add up to the remaining frames.
   */
  lemma {:induction false} ChunksTile(nframes: nat, maxFrames: nat, i: nat)
    requires maxFrames > 0
    ensures var cs := Chunks(nframes, maxFrames, i);
      SumFrames(cs) == (if i < nframes then nframes - i else 0) &&
      (forall j :: 0 <= j < |cs| ==> 0 < cs[j].nframes <= maxFrames) &&
      (forall j :: 0 <= j < |cs| ==> cs[j].firstFrame == i + j * maxFrames)
    decreases nframes - i
  {
    if i < nframes {
      ChunksTile(nframes, maxFrames, i + maxFrames);
      var cs := Chunks(nframes, maxFrames, i);
      var rest := Chunks(nframes, maxFrames, i + maxFrames);
      assert cs[1..] == rest;
      forall j | 0 < j < |cs|
        ensures cs[j].firstFrame == i + j * maxFrames
      {
        assert cs[j] == rest[j - 1];
        assert i + maxFrames + (j - 1) * maxFrames == i + j * maxFrames;
      }
    }
  }

  /*------------------------------------------------------------------
   * The plugin's state
   *------------------------------------------------------------------*/

  /** Every ring holds exactly what it accepted and has not yet handed out. */
  ghost predicate Consistent(rings: seq<Ring>, accepted: seq<seq<Byte>>, delivered: seq<seq<Byte>>)
  {
    |accepted| == |rings| && |delivered| == |rings| &&
    forall i :: 0 <= i < |rings| ==> accepted[i] == delivered[i] + rings[i].content
  }

  /** Every block has at least `to` bytes and there is a ring for each block. */
  predicate Spans(blocks: seq<seq<Byte>>, n: nat, from: nat, to: nat)
  {
    |blocks| <= n && from <= to && forall c :: 0 <= c < |blocks| ==> to <= |blocks[c]|
  }

  /** The rings after ring c was offered bytes [from, to) of block c, for every block. */
  function PassWrite(rings: seq<Ring>, blocks: seq<seq<Byte>>, from: nat, to: nat): (w: seq<Ring>)
    requires Spans(blocks, |rings|, from, to)
    ensures |w| == |rings|
    ensures forall c :: 0 <= c < |blocks| ==> w[c] == AfterWrite(rings[c], blocks[c][from..to])
    ensures forall c :: |blocks| <= c < |rings| ==> w[c] == rings[c]
  {
    seq(|rings|, c requires 0 <= c < |rings| =>
      if c < |blocks| then AfterWrite(rings[c], blocks[c][from..to]) else rings[c])
  }

  /** Every ring has room for what a pass offers it. */
  predicate Room(rings: seq<Ring>, blocks: seq<seq<Byte>>, from: nat, to: nat)
    requires |blocks| <= |rings| && from <= to
  {
    forall c :: 0 <= c < |blocks| ==> to - from <= WriteSpace(rings[c])
  }

  /** The accepted-bytes record of the same step. */
  ghost function PassAccepted(accepted: seq<seq<Byte>>, blocks: seq<seq<Byte>>, from: nat, to: nat): (w: seq<seq<Byte>>)
    requires Spans(blocks, |accepted|, from, to)
    ensures |w| == |accepted|
    ensures forall c :: 0 <= c < |blocks| ==> w[c] == accepted[c] + blocks[c][from..to]
    ensures forall c :: |blocks| <= c < |accepted| ==> w[c] == accepted[c]
  {
    seq(|accepted|, c requires 0 <= c < |accepted| => if c < |blocks| then accepted[c] + blocks[c][from..to] else accepted[c])
  }

  lemma PassKeepsConsistent(rings: seq<Ring>, accepted: seq<seq<Byte>>, delivered: seq<seq<Byte>>,
                            blocks: seq<seq<Byte>>, from: nat, to: nat)
    requires Consistent(rings, accepted, delivered) && Spans(blocks, |rings|, from, to) && Room(rings, blocks, from, to)
    ensures Consistent(PassWrite(rings, blocks, from, to), PassAccepted(accepted, blocks, from, to), delivered)
  {
    var w, a := PassWrite(rings, blocks, from, to), PassAccepted(accepted, blocks, from, to);
    forall c | 0 <= c < |blocks|
      ensures a[c] == delivered[c] + w[c].content
    {
      WriteWithinSpace(rings[c], blocks[c][from..to]);
      assert a[c] == delivered[c] + rings[c].content + blocks[c][from..to];
    }
  }

  /** A pass that offers nothing records nothing. */
  lemma PassAcceptedNothing(accepted: seq<seq<Byte>>, blocks: seq<seq<Byte>>, at: nat)
    requires Spans(blocks, |accepted|, at, at)
    ensures PassAccepted(accepted, blocks, at, at) == accepted
  {
    var a := PassAccepted(accepted, blocks, at, at);
    forall c | 0 <= c < |blocks|
      ensures a[c] == accepted[c]
    {
      assert accepted[c] + [] == accepted[c];
    }
  }

  /** A pass that offers nothing leaves every ring as it was. */
  lemma PassWriteNothing(rings: seq<Ring>, blocks: seq<seq<Byte>>, at: nat)
    requires Spans(blocks, |rings|, at, at)
    ensures PassWrite(rings, blocks, at, at) == rings
  {
    var w := PassWrite(rings, blocks, at, at);
    forall c | 0 <= c < |blocks|
      ensures w[c] == rings[c]
    {
      assert rings[c].content + [] == rings[c].content;
    }
  }

  /** Two consecutive passes received the concatenation of what each received. */
  lemma PassAcceptedTrans(accepted: seq<seq<Byte>>, blocks: seq<seq<Byte>>, from: nat, mid: nat, to: nat)
    requires Spans(blocks, |accepted|, from, to) && from <= mid <= to
    ensures PassAccepted(PassAccepted(accepted, blocks, from, mid), blocks, mid, to) == PassAccepted(accepted, blocks, from, to)
  {
    var a1 := PassAccepted(accepted, blocks, from, mid);
    var a2 := PassAccepted(a1, blocks, mid, to);
    var a := PassAccepted(accepted, blocks, from, to);
    forall c | 0 <= c < |blocks|
      ensures a2[c] == a[c]
    {
      assert blocks[c][from..mid] + blocks[c][mid..to] == blocks[c][from..to];
      assert a2[c] == accepted[c] + blocks[c][from..mid] + blocks[c][mid..to];
    }
  }

  /** What the JACK thread does while the producer makes one pass. */
  datatype Turn = Turn(lockOk: bool, periods: seq<nat>, shutdown: bool)

  /** How a pass of the producer loop ends. */
  datatype Pass = Wrote(n: nat) | Waited | LockFailed

  /** Bytes a pass wrote to each channel ring. */
  function Written(pass: Pass): nat
  {
    if pass.Wrote? then pass.n else 0
  }

  /**
   * The outcome of a pass over rings with `pending` bytes of each channel
   * left: it writes when every ring has room, otherwise it waits, or gives
   * up when the lock cannot be taken.
   */
  function PassOutcome(rings: seq<Ring>, nchannels: nat, pending: nat, lockOk: bool): Pass
    requires 1 <= nchannels <= |rings|
  {
    var n := Available(rings, nchannels, pending);
    if n > 0 then Wrote(n) else if lockOk then Waited else LockFailed
  }

  /** ao_jack_internal: options, rates and one ring per port. */
  /**
   * The plugin's settings and its resampler: every field of the internal
   * structure but the rings, the shutdown flag and the byte histories.
   */
  datatype Configuration = Configuration(clientName: string, quality: nat, portNames: array?<Option<string>>,
                                         inputRate: nat, outputRate: nat, bits: nat,
                                         resampler: Resample.Resampler?)

  class Internal {
    var clientName: string
    var quality: nat
    var portNames: array?<Option<string>>
    var inputRate: nat
    var outputRate: nat
    var bits: nat
    var resampler: Resample.Resampler?
    var rings: seq<Ring>
    var shutdown: bool
    /** Every byte each ring ever accepted, and every byte read out of it. */
    ghost var accepted: seq<seq<Byte>>
    ghost var delivered: seq<seq<Byte>>

    /** Each ring holds exactly what it accepted and has not yet handed out. */
    ghost predicate Valid()
      reads this
    {
      Consistent(rings, accepted, delivered)
    }

    function Config(): Configuration
      reads this
    {
      Configuration(clientName, quality, portNames, inputRate, outputRate, bits, resampler)
    }

    /** on_jack_shutdown: raises the shutdown flag. */
    method OnJackShutdown()
      modifies this
      ensures shutdown
      ensures rings == old(rings) && accepted == old(accepted) && delivered == old(delivered)
      ensures Config() == old(Config())
    {
      shutdown := true;
    }

    /**
     * on_sample_rate_update: records the new output rate and passes it to
     * the resampler, whose ratio follows it; nothing else changes.
     */
    method OnSampleRateUpdate(newRate: nat)
      requires resampler != null ==> resampler.srcRate != 0
      modifies this, resampler
      ensures Config() == old(Config()).(outputRate := newRate)
      ensures rings == old(rings) && shutdown == old(shutdown)
      ensures accepted == old(accepted) && delivered == old(delivered)
      ensures resampler != null ==>
        resampler.srcRate == old(resampler.srcRate) && resampler.destRate == newRate &&
        resampler.ratio == newRate as real / resampler.srcRate as real
      ensures resampler != null ==>
        resampler.state == old(resampler.state) &&
        resampler.quality == old(resampler.quality) && resampler.channels == old(resampler.channels) &&
        resampler.passthrough == old(resampler.passthrough) && resampler.hasCallback == old(resampler.hasCallback)
    {
      outputRate := newRate;
      if resampler != null {
        resampler.ChangeRate(newRate);
      }
    }

    /**
     * ao_plugin_set_option: "client_name" stores the value, "dev" and "id"
     * are ignored, "ports" replaces the port list by the parsed value and
     * "quality" stores the parsed number; these return 1, any other key 0.
     */
    method SetOption(key: string, value: string, strtoul: string -> nat) returns (handled: int)
      requires portNames != null ==> exists j :: 0 <= j < portNames.Length && portNames[j].None?
      modifies this
      ensures handled == (if key in {"client_name", "dev", "id", "ports", "quality"} then 1 else 0)
      ensures key == "client_name" ==> Config() == old(Config()).(clientName := value)
      ensures key == "quality" ==> Config() == old(Config()).(quality := strtoul(value))
      ensures key == "ports" ==> Config() == old(Config()).(portNames := portNames)
      ensures key == "ports" ==>
        portNames != null &&
        exists n :: 0 < n <= portNames.Length && portNames[..n] == Options.Pointers(Options.Fields(value)) + [None]
      ensures key !in {"client_name", "ports", "quality"} ==> Config() == old(Config())
      ensures rings == old(rings) && shutdown == old(shutdown)
      ensures accepted == old(accepted) && delivered == old(delivered)
    {
      handled := 1;
      if key == "client_name" {
        clientName := value;
      } else if key == "dev" {
      } else if key == "id" {
      } else if key == "ports" {
        var _ := Options.FreeStringArray(portNames);
        var names, size := Options.ParseCommaSeparatedOption(value);
        portNames := names;
        assert portNames[..size + 1] == Options.Pointers(Options.Fields(value)) + [None];
      } else if key == "quality" {
        quality := strtoul(value);
      } else {
        handled := 0;
      }
    }

    /*------------------------------------------------------------------
     * Producer: write_deinterleaved_frames
     *------------------------------------------------------------------*/

    /**
     * One pass of the producer loop with `pos` bytes of each channel
     * already written: the pass offers every channel ring the same number
     * of bytes, the least write space among them capped at what is left;
     * with nothing to write it waits (a step that changes nothing), unless
     * the lock cannot be taken.
     */
    method ProducerPass(nchannels: nat, channelSize: nat, blocks: seq<seq<Byte>>, pos: nat, lockOk: bool)
      returns (pass: Pass)
      requires Valid() && 1 <= nchannels <= |rings| && BlocksOf(blocks, nchannels, channelSize) && pos <= channelSize
      modifies this
      ensures Valid() && |rings| == |old(rings)| && Config() == old(Config())
      ensures shutdown == old(shutdown) && delivered == old(delivered)
      ensures pass == PassOutcome(old(rings), nchannels, channelSize - pos, lockOk)
      ensures rings == PassWrite(old(rings), blocks, pos, pos + Written(pass))
      ensures accepted == PassAccepted(old(accepted), blocks, pos, pos + Written(pass))
    {
      var rs;
      rs, pass := PassStep(rings, nchannels, channelSize, blocks, pos, lockOk);
      ghost var to := pos + Written(pass);
      PassKeepsConsistent(rings, accepted, delivered, blocks, pos, to);
      rings, accepted := rs, PassAccepted(accepted, blocks, pos, to);
    }

    /** A pass on the rings' values: the scan, the cap, then the writes or the wait. */
    static method PassStep(rings: seq<Ring>, nchannels: nat, channelSize: nat, blocks: seq<seq<Byte>>, pos: nat, lockOk: bool)
      returns (rs: seq<Ring>, pass: Pass)
      requires 1 <= nchannels <= |rings| && BlocksOf(blocks, nchannels, channelSize) && pos <= channelSize
      ensures pass == PassOutcome(rings, nchannels, channelSize - pos, lockOk)
      ensures Written(pass) <= channelSize - pos && Room(rings, blocks, pos, pos + Written(pass))
      ensures rs == PassWrite(rings, blocks, pos, pos + Written(pass))
    {
      var available := PassAvailable(rings, nchannels, channelSize - pos);
      if available > 0 {
        var written;
        rs, written := WriteChannels(rings, nchannels, channelSize, blocks, pos, available);
        pass := Wrote(written);
        assert Written(pass) == available;
      } else {
        PassWriteNothing(rings, blocks, pos);
        rs := rings;
        pass := if lockOk then Waited else LockFailed;
        assert Written(pass) == 0;
      }
    }

    /** The scan and the cap of a pass: the least write space, at most the bytes left. */
    static method PassAvailable(rings: seq<Ring>, nchannels: nat, nbytesByChannel: nat) returns (available: nat)
      requires 1 <= nchannels <= |rings|
      ensures available == Available(rings, nchannels, nbytesByChannel)
    {
      available := MinimumWriteSpace(rings, nchannels);
      if available > nbytesByChannel {
        available := nbytesByChannel;
      }
    }

    /** The scan of a pass: the least write space among the channel rings. */
    static method MinimumWriteSpace(rings: seq<Ring>, nchannels: nat) returns (available: nat)
      requires 1 <= nchannels <= |rings|
      ensures available == MinWriteSpace(rings, nchannels)
    {
      available := WriteSpace(rings[0]);
      var i := 1;
      while i < nchannels
        invariant 1 <= i <= nchannels && available == MinWriteSpace(rings, i)
      {
        var available2 := WriteSpace(rings[i]);
        if available2 < available {
          available := available2;
        }
        i := i + 1;
      }
    }

    /**
     * The writes of a pass: ring c is offered `available` bytes of block c
     * from `pos` on; the pass fails if a ring takes a different count than
     * ring 0 did.
     */
    static method WriteChannels(rings: seq<Ring>, nchannels: nat, channelSize: nat, blocks: seq<seq<Byte>>, pos: nat, available: nat)
      returns (rs: seq<Ring>, written: nat)
      requires 1 <= nchannels <= |rings| && BlocksOf(blocks, nchannels, channelSize)
      requires 0 < available <= MinWriteSpace(rings, nchannels) && pos + available <= channelSize
      ensures written == available
      ensures Room(rings, blocks, pos, pos + available)
      ensures rs == PassWrite(rings, blocks, pos, pos + available)
    {
      MinWriteSpaceIsMinimum(rings, nchannels);
      rs, written := rings, 0;
      var i := 0;
      while i < nchannels
        invariant 0 <= i <= nchannels && |rs| == |rings|
        invariant i > 0 ==> written == available
        invariant forall c :: 0 <= c < i ==> rs[c] == AfterWrite(rings[c], blocks[c][pos..pos + available])
        invariant forall c :: i <= c < |rs| ==> rs[c] == rings[c]
      {
        var written2 := Accepted(rs[i], available);
        rs := rs[i := AfterWrite(rs[i], blocks[i][pos..pos + available])];
        if i == 0 {
          written := written2;
        } else if written2 != written {
          return;
        }
        i := i + 1;
      }
      assert rs == PassWrite(rings, blocks, pos, pos + available);
    }

    /**
     * One turn of the producer loop: a pass, then whatever the JACK thread
     * does meanwhile (its process periods, its shutdown notification). A
     * pass whose lock fails ends the call at once, so nothing else happens.
     */
    method ProducerTurn(nchannels: nat, channelSize: nat, blocks: seq<seq<Byte>>, pos: nat, turn: Turn)
      returns (pass: Pass)
      requires Valid() && 1 <= nchannels <= |rings| && BlocksOf(blocks, nchannels, channelSize) && pos <= channelSize
      modifies this
      ensures Valid() && |rings| == |old(rings)| && Config() == old(Config())
      ensures pass == PassOutcome(old(rings), nchannels, channelSize - pos, turn.lockOk)
      ensures pass.Wrote? ==> 0 < pass.n <= channelSize - pos && accepted == PassAccepted(old(accepted), blocks, pos, pos + pass.n)
      ensures !pass.Wrote? ==> accepted == old(accepted)
      ensures pass.LockFailed? ==> shutdown == old(shutdown) && rings == old(rings) && delivered == old(delivered)
      ensures !pass.LockFailed? ==> shutdown == (old(shutdown) || turn.shutdown)
    {
      ghost var before, acc := rings, accepted;
      pass := ProducerPass(nchannels, channelSize, blocks, pos, turn.lockOk);
      if !pass.Wrote? {
        PassAcceptedNothing(acc, blocks, pos);
        PassWriteNothing(before, blocks, pos);
      }
      if pass.LockFailed? {
        return;
      }
      RunPeriods(turn.periods);
      if turn.shutdown {
        OnJackShutdown();
      }
    }

    /**
     * write_deinterleaved_frames: passes until every byte of each
     * channel's block is written or shutdown is seen, consuming one turn
     * of the schedule per pass. Returns -1 when a lock fails, 0 when the
     * loop ends, and None when the schedule ends first (the call has not
     * returned yet). `written` is the byte count every channel received.
     */
    method WriteDeinterleavedFrames(nchannels: nat, nframes: nat, blocks: seq<seq<Byte>>, schedule: seq<Turn>)
      returns (status: Option<int>, ghost written: nat)
      requires Valid() && 1 <= nchannels <= |rings| && BlocksOf(blocks, nchannels, 4 * nframes)
      modifies this
      ensures Valid() && |rings| == |old(rings)| && Config() == old(Config())
      ensures written <= 4 * nframes
      ensures accepted == PassAccepted(old(accepted), blocks, 0, written)
      ensures status.Some? ==> status.value == 0 || status.value == -1
      ensures status == Some(0) ==> written == 4 * nframes || shutdown
      ensures status == Some(-1) ==> exists k :: 0 <= k < |schedule| && !schedule[k].lockOk
      ensures status.None? ==> !shutdown && written < 4 * nframes
      ensures old(shutdown) ==> status == Some(0) && written == 0 && rings == old(rings)
    {
      var channelSize := 4 * nframes;
      var nbytesByChannel: nat := channelSize;
      var pos: nat := 0;
      var k := 0;
      PassAcceptedNothing(accepted, blocks, 0);
      while nbytesByChannel > 0 && !shutdown
        invariant Valid() && |rings| == |old(rings)| && Config() == old(Config())
        invariant 0 <= nbytesByChannel && pos + nbytesByChannel == channelSize && k <= |schedule|
        invariant accepted == PassAccepted(old(accepted), blocks, 0, pos)
        invariant old(shutdown) ==> shutdown && pos == 0 && rings == old(rings)
        decreases |schedule| - k
      {
        if k == |schedule| {
          return None, pos;
        }
        var pass := ProducerTurn(nchannels, channelSize, blocks, pos, schedule[k]);
        if pass.LockFailed? {
          return Some(-1), pos;
        }
        if pass.Wrote? {
          PassAcceptedTrans(old(accepted), blocks, 0, pos, pos + pass.n);
          pos := pos + pass.n;
          nbytesByChannel := nbytesByChannel - pass.n;
        }
        k := k + 1;
      }
      status, written := Some(0), pos;
    }

    /*------------------------------------------------------------------
     * Consumer: on_jack_hungry
     *------------------------------------------------------------------*/

    /**
     * The JACK process callback for one period of nframes frames: every
     * ring loses the bytes the consumer asks for as written (up to three
     * more than the port holds), and every port's buffer receives the
     * oldest whole samples of its ring, at most nframes of them, then
     * silence; nothing happens when nframes is 0.
     */
    method ConsumerPeriod(nframes: nat) returns (buffers: seq<seq<Byte>>)
      requires Valid()
      modifies this
      ensures Valid() && |rings| == |old(rings)| && Config() == old(Config())
      ensures accepted == old(accepted) && shutdown == old(shutdown)
      ensures nframes == 0 ==> buffers == [] && rings == old(rings) && delivered == old(delivered)
      ensures nframes > 0 ==> |buffers| == |rings|
      ensures nframes > 0 ==>
        forall i :: 0 <= i < |rings| ==>
          var n := PossibleBytesAsWritten(ReadSpace(old(rings[i])), nframes);
          rings[i] == AfterRead(old(rings[i]), n) &&
          delivered[i] == old(delivered[i]) + ReadBytes(old(rings[i]), n) &&
          buffers[i] == PortBuffer(old(rings[i]).content, nframes)
    {
      buffers := [];
      if nframes > 0 {
        var rs, taken;
        rs, taken, buffers := ConsumeRings(rings, nframes);
        ghost var del := delivered;
        delivered := seq(|del|, c requires 0 <= c < |del| && c < |taken| => del[c] + taken[c]);
        forall c | 0 <= c < |rings|
          ensures accepted[c] == delivered[c] + rs[c].content
        {
          assert rings[c].content == taken[c] + rs[c].content;
        }
        rings := rs;
      }
    }

    /**
     * The port loop of on_jack_hungry, on the rings' values: what each ring
     * keeps, the bytes taken out of it and its port's buffer.
     */
    static method ConsumeRings(rings: seq<Ring>, nframes: nat)
      returns (rs: seq<Ring>, taken: seq<seq<Byte>>, buffers: seq<seq<Byte>>)
      ensures |rs| == |rings| && |taken| == |rings| && |buffers| == |rings|
      ensures forall c :: 0 <= c < |rings| ==>
        var n := PossibleBytesAsWritten(ReadSpace(rings[c]), nframes);
        rs[c] == AfterRead(rings[c], n) &&
        taken[c] == ReadBytes(rings[c], n) &&
        buffers[c] == PortBuffer(rings[c].content, nframes)
    {
      rs, taken, buffers := rings, [], [];
      var i := 0;
      while i < |rs|
        invariant 0 <= i <= |rs| && |rs| == |rings| && |taken| == i && |buffers| == i
        invariant forall c :: 0 <= c < i ==>
          var n := PossibleBytesAsWritten(ReadSpace(rings[c]), nframes);
          rs[c] == AfterRead(rings[c], n) &&
          taken[c] == ReadBytes(rings[c], n) &&
          buffers[c] == PortBuffer(rings[c].content, nframes)
        invariant forall c :: i <= c < |rs| ==> rs[c] == rings[c]
      {
        var possibleBytes := PossibleBytesAsWritten(ReadSpace(rs[i]), nframes);
        var out := FillPort(rs[i], nframes);
        taken := taken + [ReadBytes(rs[i], possibleBytes)];
        rs := rs[i := AfterRead(rs[i], possibleBytes)];
        buffers := buffers + [out];
        i := i + 1;
      }
    }

    /** The process periods the JACK thread runs during one producer pass. */
    method RunPeriods(periods: seq<nat>)
      requires Valid()
      modifies this
      ensures Valid() && |rings| == |old(rings)| && Config() == old(Config())
      ensures accepted == old(accepted) && shutdown == old(shutdown)
      ensures periods == [] ==> rings == old(rings)
    {
      var j := 0;
      while j < |periods|
        invariant j <= |periods| && Valid() && |rings| == |old(rings)| && Config() == old(Config())
        invariant accepted == old(accepted) && shutdown == old(shutdown)
        invariant periods == [] ==> rings == old(rings)
      {
        var _ := ConsumerPeriod(periods[j]);
        j := j + 1;
      }
    }

    /*------------------------------------------------------------------
     * on_frames_available
     *------------------------------------------------------------------*/

    /**
     * on_frames_available: with more than one channel the frames are first
     * deinterleaved into a scratch buffer; then the producer writes each
     * channel's samples, as bytes, to that channel's ring.
     */
    method OnFramesAvailable(nchannels: nat, nframes: nat, interleaved: array<Float32>, schedule: seq<Turn>)
      returns (status: Option<int>, ghost written: nat)
      requires Valid() && 1 <= nchannels <= |rings| && nchannels * nframes <= interleaved.Length
      modifies this
      ensures Valid() && |rings| == |old(rings)| && Config() == old(Config())
      ensures written <= 4 * nframes
      ensures accepted == PassAccepted(old(accepted), ChannelBlocks(interleaved[..nchannels * nframes], nchannels, nframes), 0, written)
      ensures status.Some? ==> status.value == 0 || status.value == -1
      ensures status == Some(0) ==> written == 4 * nframes || shutdown
      ensures status == Some(-1) ==> exists k :: 0 <= k < |schedule| && !schedule[k].lockOk
      ensures status.None? ==> !shutdown && written < 4 * nframes
      ensures old(shutdown) ==> status == Some(0) && written == 0 && rings == old(rings)
    {
      var blocks := ChannelMajorBlocks(nchannels, nframes, interleaved);
      status, written := WriteDeinterleavedFrames(nchannels, nframes, blocks, schedule);
    }

    /**
     * The buffer the producer walks: the frames deinterleaved into a
     * scratch buffer when there is more than one channel, the caller's
     * buffer itself otherwise, seen as bytes and cut into one block per
     * channel.
     */
    static method ChannelMajorBlocks(nchannels: nat, nframes: nat, interleaved: array<Float32>)
      returns (blocks: seq<seq<Byte>>)
      requires 1 <= nchannels && nchannels * nframes <= interleaved.Length
      ensures BlocksOf(blocks, nchannels, 4 * nframes)
      ensures blocks == ChannelBlocks(interleaved[..nchannels * nframes], nchannels, nframes)
    {
      var samples := interleaved[..nchannels * nframes];
      var data := samples;
      if nchannels > 1 {
        var deinterleavedData := new Float32[nchannels * nframes](_ => ZeroFloat);
        Deinterleave.DeinterleaveFrames(nchannels, nframes, interleaved, deinterleavedData);
        data := deinterleavedData[..];
      } else {
        Deinterleave.DeinterleaveOneChannel(samples, nframes);
      }
      assert data == Deinterleave.Deinterleaved(samples, nchannels, nframes);
      DeinterleavedChannelBlocks(samples, nchannels, nframes);
      blocks := Blocks(FloatBytes(data), nchannels, 4 * nframes);
    }

    /*------------------------------------------------------------------
     * ao_plugin_play
     *------------------------------------------------------------------*/

    /**
     * ao_plugin_play: refuses to play after shutdown or with more channels
     * than ports; otherwise decodes whole frames of the buffer and hands
     * chunks of at most max_input_frames frames to the resampler (whose
     * status for call j is resample(j)) until one fails. Returns 1 when
     * every chunk succeeded, 0 otherwise.
     */
    method Play(samples: seq<Byte>, numBytes: nat, nchannels: nat, resample: nat -> int)
      returns (ok: int, decoded: seq<int>, chunks: seq<Chunk>)
      requires numBytes < TwoTo32 && numBytes <= |samples| && nchannels > 0 && bits > 0 && outputRate > 0
      requires !shutdown && nchannels <= |rings| && PlayFrames(numBytes, bits, nchannels) > 0 ==>
        MaxInputFrames(nchannels, inputRate, outputRate) > 0
      requires !shutdown && nchannels <= |rings| && bits == 24 ==>
        ReadExtent24(nchannels * PlayFrames(numBytes, bits, nchannels)) <= |samples|
      ensures ok == 0 || ok == 1
      ensures shutdown || nchannels > |rings| ==> ok == 0 && decoded == [] && chunks == []
      ensures !shutdown && nchannels <= |rings| ==>
        |decoded| == nchannels * PlayFrames(numBytes, bits, nchannels) && DecodedFrom(decoded, bits, samples)
      ensures !shutdown && nchannels <= |rings| ==>
        ChunkRun(chunks, ok == 1, PlayFrames(numBytes, bits, nchannels), MaxInputFrames(nchannels, inputRate, outputRate), resample)
    {
      decoded, chunks := [], [];
      if shutdown {
        return 0, decoded, chunks;
      } else if nchannels > |rings| {
        return 0, decoded, chunks;
      }
      var nvalues := NValues(numBytes, bits);
      var nframes := nvalues / nchannels;
      WholeFrames(nvalues, nchannels);
      var data := new int[nchannels * nframes];
      DecodeInto(samples, numBytes, bits, data);
      decoded := data[..];
      var maxInputFrames := MaxInputFrames(nchannels, inputRate, outputRate);
      var status;
      status, chunks := ResampleChunks(nframes, maxInputFrames, resample);
      ok := if status == 0 then 1 else 0;
    }

    /**
     * The chunk loop of play: frames i.. i + max_input_frames - 1 go to the
     * resampler (the last chunk takes what is left) while every call so far
     * returned 0.
     */
    static method ResampleChunks(nframes: nat, maxFrames: nat, resample: nat -> int)
      returns (status: int, chunks: seq<Chunk>)
      requires nframes > 0 ==> maxFrames > 0
      ensures ChunkRun(chunks, status == 0, nframes, maxFrames, resample)
    {
      status, chunks := 0, [];
      if nframes == 0 {
        return;
      }
      ghost var plan := Chunks(nframes, maxFrames, 0);
      var i := 0;
      while i < nframes && status == 0
        invariant chunks + Chunks(nframes, maxFrames, i) == plan
        invariant forall j :: 0 <= j < |chunks| - 1 ==> resample(j) == 0
        invariant status == 0 <==> forall j :: 0 <= j < |chunks| ==> resample(j) == 0
        invariant status != 0 ==> chunks != [] && resample(|chunks| - 1) == status
        decreases nframes - i
      {
        var partialNframes := maxFrames;
        if i + maxFrames > nframes {
          partialNframes := nframes - i;
        }
        assert Chunks(nframes, maxFrames, i) == [Chunk(i, partialNframes)] + Chunks(nframes, maxFrames, i + maxFrames);
        status := resample(|chunks|);
        chunks := chunks + [Chunk(i, partialNframes)];
        i := i + maxFrames;
      }
      assert plan[..|chunks|] == chunks;
    }

    /**
     * The decoder dispatch of play, for whole frames only: as many values
     * as the buffer has room for are decoded with the decoder the sample
     * width selects; other widths leave the buffer as it was.
     */
    static method DecodeInto(samples: seq<Byte>, numBytes: nat, bits: nat, data: array<int>)
      requires numBytes < TwoTo32 && numBytes <= |samples| && bits > 0
      requires data.Length <= NValues(numBytes, bits)
      requires bits == 24 ==> ReadExtent24(data.Length) <= |samples|
      modifies data
      ensures bits == 24 ==> data[..] == Uint24AsWritten(samples, data.Length, old(data[..]))
      ensures DecodedFrom(data[..], bits, samples)
    {
      ghost var before := data[..];
      NValuesFit(numBytes, bits, data.Length);
      if bits == 8 {
        ArrayUint8ToFloat(samples, data, data.Length);
      } else if bits == 16 {
        ArrayUint16ToFloat(samples, data, data.Length);
      } else if bits == 24 {
        ArrayUint24ToFloat(samples, data, data.Length);
        assert |before| == data.Length && data[..] == Uint24AsWritten(samples, data.Length, before);
      } else if bits == 32 {
        ArrayUint32ToFloat(samples, data, data.Length);
      }
    }
  }

  /** nframes of play: the whole frames among the decoded values. */
  function PlayFrames(numBytes: nat, bits: nat, nchannels: nat): nat
    requires bits > 0 && nchannels > 0
  {
    NValues(numBytes, bits) / nchannels
  }

  lemma WholeFrames(nvalues: nat, nchannels: nat)
    requires nchannels > 0
    ensures 0 <= nchannels * (nvalues / nchannels) <= nvalues
  {
  }

  /**
   * What play's decoder leaves in its buffer. At 8, 16 and 32 bits every
   * value is the sample at its index in the input. At 24 bits it is what
   * array_uint24_to_float writes over the buffer's earlier contents, which
   * stay in the slots it skips.
   */
  ghost predicate DecodedFrom(decoded: seq<int>, bits: nat, samples: seq<Byte>)
  {
    (bits in {8, 16, 32} ==> forall i :: 0 <= i < |decoded| ==>
      SampleInRange(bits, samples, i) && decoded[i] == DecodedSample(bits, samples, i)) &&
    (bits == 24 ==>
      ReadExtent24(|decoded|) <= |samples| &&
      exists before: seq<int> :: |before| == |decoded| && decoded == Uint24AsWritten(samples, |decoded|, before))
  }

  /**
   * What the chunk loop did: the chunks are a prefix of the plan, all but
   * the last succeeded, and the loop succeeded exactly when every chunk of
   * the plan was handed over and accepted.
   */
  predicate ChunkRun(chunks: seq<Chunk>, succeeded: bool, nframes: nat, maxFrames: nat, resample: nat -> int)
  {
    (nframes == 0 ==> chunks == [] && succeeded) &&
    (nframes > 0 ==>
      maxFrames > 0 &&
      var plan := Chunks(nframes, maxFrames, 0);
      |chunks| <= |plan| && chunks == plan[..|chunks|] &&
      (forall j :: 0 <= j < |chunks| - 1 ==> resample(j) == 0) &&
      (succeeded <==> forall j :: 0 <= j < |chunks| ==> resample(j) == 0) &&
      (succeeded ==> chunks == plan) &&
      (!succeeded ==> chunks != [] && resample(|chunks| - 1) != 0))
  }

  /** The decoders never read past num_bytes when asked for at most nvalues values. */
  lemma NValuesFit(numBytes: nat, bits: nat, count: nat)
    requires numBytes < TwoTo32 && bits > 0 && count <= NValues(numBytes, bits)
    ensures bits == 8 ==> count <= numBytes
    ensures bits == 16 ==> 2 * count <= numBytes
    ensures bits == 24 ==> 3 * count <= numBytes
    ensures bits == 32 ==> 4 * count <= numBytes
  {
    var product := (numBytes * 8) % TwoTo32;
    assert product <= numBytes * 8;
    assert count * bits <= product by {
      Deinterleave.MulMono(count, product / bits, bits);
    }
  }

  /*------------------------------------------------------------------
   * What each ring receives
   *------------------------------------------------------------------*/

  /** Channel c's samples in frame order. */
  function ChannelSamples(s: seq<Float32>, nchannels: nat, nframes: nat, c: nat): (cs: seq<Float32>)
    requires |s| == nchannels * nframes && c < nchannels
    ensures |cs| == nframes
    ensures forall f :: 0 <= f < nframes ==> cs[f] == s[Deinterleave.FrameMajor(nchannels, nframes, c, f)]
  {
    seq(nframes, f requires 0 <= f < nframes => s[Deinterleave.FrameMajor(nchannels, nframes, c, f)])
  }

  /** The bytes the ring of channel c is meant to receive from one batch of frames. */
  function ChannelBytes(s: seq<Float32>, nchannels: nat, nframes: nat, c: nat): (bs: seq<Byte>)
    requires |s| == nchannels * nframes && c < nchannels
    ensures |bs| == 4 * nframes
  {
    FloatBytes(ChannelSamples(s, nchannels, nframes, c))
  }

  /** Those bytes for every channel. */
  function ChannelBlocks(s: seq<Float32>, nchannels: nat, nframes: nat): (blocks: seq<seq<Byte>>)
    requires |s| == nchannels * nframes
    ensures BlocksOf(blocks, nchannels, 4 * nframes)
    ensures forall c :: 0 <= c < nchannels ==> blocks[c] == ChannelBytes(s, nchannels, nframes, c)
  {
    seq(nchannels, c requires 0 <= c < nchannels => ChannelBytes(s, nchannels, nframes, c))
  }

  /**
   * The blocks the producer walks in the byte image of the deinterleaved
   * buffer are each channel's samples in frame order.
   */
  lemma DeinterleavedChannelBlocks(s: seq<Float32>, nchannels: nat, nframes: nat)
    requires |s| == nchannels * nframes
    ensures nchannels * (4 * nframes) <= |FloatBytes(Deinterleave.Deinterleaved(s, nchannels, nframes))|
    ensures Blocks(FloatBytes(Deinterleave.Deinterleaved(s, nchannels, nframes)), nchannels, 4 * nframes)
      == ChannelBlocks(s, nchannels, nframes)
  {
    Times4(nchannels, nframes);
    var blocks := Blocks(FloatBytes(Deinterleave.Deinterleaved(s, nchannels, nframes)), nchannels, 4 * nframes);
    forall c | 0 <= c < nchannels
      ensures blocks[c] == ChannelBytes(s, nchannels, nframes, c)
    {
      DeinterleavedChannelBytes(s, nchannels, nframes, c);
    }
  }

  lemma DeinterleavedChannelBytes(s: seq<Float32>, nchannels: nat, nframes: nat, c: nat)
    requires |s| == nchannels * nframes && c < nchannels
    ensures c * (4 * nframes) + 4 * nframes <= |FloatBytes(Deinterleave.Deinterleaved(s, nchannels, nframes))|
    ensures FloatBytes(Deinterleave.Deinterleaved(s, nchannels, nframes))[c * (4 * nframes)..c * (4 * nframes) + 4 * nframes]
      == ChannelBytes(s, nchannels, nframes, c)
  {
    ChannelFits(c, nchannels, 4 * nframes);
    Times4(nchannels, nframes);
    var d := Deinterleave.Deinterleaved(s, nchannels, nframes);
    var bs := FloatBytes(d);
    Times4(c, nframes);
    var base := 4 * (c * nframes);
    var want := ChannelBytes(s, nchannels, nframes, c);
    var cs := ChannelSamples(s, nchannels, nframes, c);
    forall b | 0 <= b < 4 * nframes
      ensures bs[base + b] == want[b]
    {
      var f, j := b / 4, b % 4;
      var k := Deinterleave.ChannelMajor(nchannels, nframes, c, f);
      assert bs[4 * k + j] == d[k][j];
      assert want[4 * f + j] == cs[f][j];
    }
  }

  lemma Times4(a: nat, b: nat)
    ensures a * (4 * b) == 4 * (a * b)
  {
  }
}
