/**
 * The JACK plugin's sample-rate converter wrapper (ao_jack_resample.c).
 * libsamplerate is foreign code: src_new is a success flag, src_process an
 * engine oracle that reports frames used and generated, and the callback
 * that receives converted frames a sink oracle that returns a status.
 */
module Resample {
  import opened CTypes

  /** libsamplerate converter types, with their values in samplerate.h. */
  const SrcSincBestQuality: int := 0
  const SrcSincMediumQuality: int := 1
  const SrcSincFastest: int := 2
  const SrcZeroOrderHold: int := 3
  const SrcLinear: int := 4

  /** quality_levels: converters from cheapest to best. */
  const QualityLevels: seq<int> :=
    [SrcLinear, SrcZeroOrderHold, SrcSincFastest, SrcSincMediumQuality, SrcSincBestQuality]

  const NumberOfQualityLevels: nat := 5

  const TwoTo64: int := 0x1_0000_0000_0000_0000

  /*------------------------------------------------------------------
   * Quality mapping
   *------------------------------------------------------------------*/

  /**
   * The table index aojack_new_resampler computes, as written: the
   * unsigned long product quality * 5 wraps modulo 2^64, is divided by 10,
   * and an index past the table is replaced by the enum constant
   * SRC_SINC_BEST_QUALITY, whose value 0 is the index of SRC_LINEAR.
   */
  function QualityIndexAsWritten(quality: nat): (i: nat)
    requires quality < TwoTo64
    ensures i < NumberOfQualityLevels
  {
    var q := (quality * NumberOfQualityLevels) % TwoTo64 / 10;
    if q >= NumberOfQualityLevels then SrcSincBestQuality else q
  }

  /** The index the table evidently calls for: quality / 2, capped at the best level. */
  function QualityIndex(quality: nat): (i: nat)
    ensures i < NumberOfQualityLevels
    ensures quality < 10 ==> i == quality * NumberOfQualityLevels / 10
    ensures quality >= 10 ==> i == NumberOfQualityLevels - 1
  {
    if quality / 2 < NumberOfQualityLevels then quality / 2 else NumberOfQualityLevels - 1
  }

  /** Below 10 both mappings agree. */
  lemma QualityIndexAgrees(quality: nat)
    requires quality < 10
    ensures QualityIndexAsWritten(quality) == QualityIndex(quality)
  {
  }

  /**
   * As written, asking for more quality than 9 selects the worst converter,
   * as long as quality * 5 does not wrap.
   */
  lemma QualityAboveNineIsLinear(quality: nat)
    requires 10 <= quality < TwoTo64 / NumberOfQualityLevels
    ensures QualityLevels[QualityIndexAsWritten(quality)] == SrcLinear
    ensures QualityLevels[QualityIndexAsWritten(9)] == SrcSincBestQuality
  {
    assert (quality * NumberOfQualityLevels) % TwoTo64 == quality * NumberOfQualityLevels;
  }

  /**
   * Once quality * 5 wraps, the as-written mapping selects converters by
   * the wrapped product: (2^64 + 24) / 5 selects SRC_SINC_FASTEST.
   */
  lemma QualityWrapsPastLimit()
    ensures (TwoTo64 + 24) / NumberOfQualityLevels >= TwoTo64 / NumberOfQualityLevels
    ensures QualityLevels[QualityIndexAsWritten((TwoTo64 + 24) / NumberOfQualityLevels)] == SrcSincFastest
  {
    assert (TwoTo64 + 24) / NumberOfQualityLevels * NumberOfQualityLevels == TwoTo64 + 24;
  }

  /** With the intended mapping more quality never selects a cheaper converter. */
  lemma QualityIndexMonotone(q1: nat, q2: nat)
    requires q1 <= q2
    ensures QualityIndex(q1) <= QualityIndex(q2)
  {
  }

  /*------------------------------------------------------------------
   * Engine state and its release
   *------------------------------------------------------------------*/

  /**
   * The `state` field: never written (malloc'd memory), NULL, or an engine
   * created by src_new.
   */
  datatype SrcState = Uninitialised | NoState | Engine(converter: int, channels: nat)

  datatype DeleteStep = Skip | ReleaseEngine | ReadsUninitialised

  /** What `if (resampler->state)` in aojack_delete_resampler does with each state. */
  function DeleteStepFor(s: SrcState): (d: DeleteStep)
    ensures d == ReleaseEngine <==> s.Engine?
    ensures d == ReadsUninitialised <==> s == Uninitialised
  {
    match s
    case Uninitialised => ReadsUninitialised
    case NoState => Skip
    case Engine(_, _) => ReleaseEngine
  }

  /** The state aojack_new_resampler leaves, as written: untouched in passthrough mode. */
  function InitialStateAsWritten(passthrough: bool, converter: int, nchannels: nat): SrcState
  {
    if passthrough then Uninitialised else Engine(converter, nchannels)
  }

  /** The state it evidently should leave: NULL in passthrough mode. */
  function InitialState(passthrough: bool, converter: int, nchannels: nat): (s: SrcState)
    ensures s != Uninitialised
    ensures s.Engine? <==> !passthrough
  {
    if passthrough then NoState else Engine(converter, nchannels)
  }

  /** As written, deleting a passthrough resampler tests an uninitialised pointer. */
  lemma PassthroughDeleteReadsUninitialised(converter: int, nchannels: nat)
    ensures DeleteStepFor(InitialStateAsWritten(true, converter, nchannels)) == ReadsUninitialised
  {
  }

  /** With the state set to NULL, delete releases an engine exactly when one was created. */
  lemma DeleteReleasesOnlyEngines(passthrough: bool, converter: int, nchannels: nat)
    ensures DeleteStepFor(InitialState(passthrough, converter, nchannels)) != ReadsUninitialised
    ensures DeleteStepFor(InitialState(passthrough, converter, nchannels)) == ReleaseEngine <==> !passthrough
  {
  }

  /*------------------------------------------------------------------
   * The conversion loop, as a trace
   *------------------------------------------------------------------*/

  /** What src_process reports for one call. */
  datatype EngineReply = EngineReply(status: int, used: nat, generated: nat, output: seq<Float32>)

  /** One src_process call: its data_in, as an offset in floats, its input_frames and its src_ratio. */
  datatype EngineCall = EngineCall(offset: nat, inputFrames: nat, ratio: real)

  /** One callback invocation: the frame count and the converted samples handed over. */
  datatype Delivery = Delivery(nframes: nat, samples: seq<Float32>)

  datatype Trace = Trace(status: int, calls: seq<EngineCall>, deliveries: seq<Delivery>, consumed: nat)

  /**
   * A successful src_process call consumes at least one and at most the
   * offered input frames. The call number and the offered count determine
   * the reply.
   */
  ghost predicate Progress(engine: (nat, nat) -> EngineReply)
  {
    forall k: nat, n: nat :: n > 0 && engine(k, n).status == 0 ==> 0 < engine(k, n).used <= n
  }

  /**
   * The converting branch of aojack_resample_frames, continued from a state
   * where `consumed` frames are used and `calls` and `deliveries` have
   * happened: engine call number |calls| gets the remaining frames at
   * offset consumed * channels; on success the callback, when set, gets the
   * output as delivery number |deliveries|; the first non-zero status ends
   * the loop.
   */
  ghost function Run(engine: (nat, nat) -> EngineReply, sink: nat -> int, hasCallback: bool,
                     channels: nat, ratio: real, nframes: nat, consumed: nat,
                     calls: seq<EngineCall>, deliveries: seq<Delivery>): Trace
    requires consumed <= nframes && Progress(engine)
    decreases nframes - consumed
  {
    if consumed == nframes then Trace(0, calls, deliveries, consumed)
    else
      var reply := engine(|calls|, nframes - consumed);
      var calls' := calls + [EngineCall(channels * consumed, nframes - consumed, ratio)];
      if reply.status != 0 then Trace(reply.status, calls', deliveries, consumed)
      else if !hasCallback then
        Run(engine, sink, hasCallback, channels, ratio, nframes, consumed + reply.used, calls', deliveries)
      else
        var deliveries' := deliveries + [Delivery(reply.generated, reply.output)];
        var st := sink(|deliveries|);
        if st != 0 then Trace(st, calls', deliveries', consumed + reply.used)
        else Run(engine, sink, hasCallback, channels, ratio, nframes, consumed + reply.used, calls', deliveries')
  }

  /** A whole conversion of nframes frames. */
  ghost function Convert(engine: (nat, nat) -> EngineReply, sink: nat -> int, hasCallback: bool,
                         channels: nat, ratio: real, nframes: nat): Trace
    requires Progress(engine)
  {
    Run(engine, sink, hasCallback, channels, ratio, nframes, 0, [], [])
  }

  /**
   * Every engine call so far was offered the remaining frames at the
   * matching offset, with the ratio of the whole conversion.
   */
  ghost predicate CallsAccounted(calls: seq<EngineCall>, channels: nat, ratio: real, nframes: nat, consumed: nat)
  {
    forall j :: 0 <= j < |calls| ==>
      calls[j].inputFrames <= nframes - consumed + calls[j].inputFrames &&
      nframes - calls[j].inputFrames <= consumed &&
      calls[j].offset == channels * (nframes - calls[j].inputFrames) &&
      calls[j].ratio == ratio
  }

  /**
   * Frames accounting of the loop: consumption never exceeds nframes and is
   * complete when the status is 0; every call is offered the remaining
   * frames at the offset the data pointer has advanced to, and the ratio
   * read once before the loop.
   */
  lemma {:induction false} RunAccounting(engine: (nat, nat) -> EngineReply, sink: nat -> int, hasCallback: bool,
                                         channels: nat, ratio: real, nframes: nat, consumed: nat,
                                         calls: seq<EngineCall>, deliveries: seq<Delivery>)
    requires consumed <= nframes && Progress(engine)
    requires CallsAccounted(calls, channels, ratio, nframes, consumed)
    ensures var t := Run(engine, sink, hasCallback, channels, ratio, nframes, consumed, calls, deliveries);
      consumed <= t.consumed <= nframes &&
      (t.status == 0 ==> t.consumed == nframes) &&
      CallsAccounted(t.calls, channels, ratio, nframes, t.consumed)
    decreases nframes - consumed
  {
    if consumed < nframes {
      var reply := engine(|calls|, nframes - consumed);
      var calls' := calls + [EngineCall(channels * consumed, nframes - consumed, ratio)];
      if reply.status == 0 {
        var deliveries' := if hasCallback then deliveries + [Delivery(reply.generated, reply.output)] else deliveries;
        assert CallsAccounted(calls', channels, ratio, nframes, consumed + reply.used);
        RunAccounting(engine, sink, hasCallback, channels, ratio, nframes, consumed + reply.used, calls', deliveries');
      }
    }
  }

  /**
   * How many calls and deliveries a run makes: the callback, when set, gets
   * one delivery per successful engine call, and none otherwise; calls
   * happened before are kept.
   */
  lemma {:induction false} RunCounts(engine: (nat, nat) -> EngineReply, sink: nat -> int, hasCallback: bool,
                                     channels: nat, ratio: real, nframes: nat, consumed: nat,
                                     calls: seq<EngineCall>, deliveries: seq<Delivery>)
    requires consumed <= nframes && Progress(engine)
    requires hasCallback ==> |deliveries| == |calls|
    requires !hasCallback ==> deliveries == []
    ensures var t := Run(engine, sink, hasCallback, channels, ratio, nframes, consumed, calls, deliveries);
      (t.calls == calls <==> consumed == nframes) &&
      calls <= t.calls &&
      (!hasCallback ==> t.deliveries == []) &&
      (hasCallback ==> |t.deliveries| <= |t.calls| <= |t.deliveries| + 1) &&
      (hasCallback && t.status == 0 ==> |t.deliveries| == |t.calls|)
    decreases nframes - consumed
  {
    if consumed < nframes {
      var reply := engine(|calls|, nframes - consumed);
      var calls' := calls + [EngineCall(channels * consumed, nframes - consumed, ratio)];
      if reply.status == 0 {
        var deliveries' := if hasCallback then deliveries + [Delivery(reply.generated, reply.output)] else deliveries;
        RunCounts(engine, sink, hasCallback, channels, ratio, nframes, consumed + reply.used, calls', deliveries');
      }
    }
  }

  /** Every engine call and callback so far reported success. */
  ghost predicate AllSucceeded(engine: (nat, nat) -> EngineReply, sink: nat -> int,
                               calls: seq<EngineCall>, deliveries: seq<Delivery>)
  {
    (forall j :: 0 <= j < |calls| ==> engine(j, calls[j].inputFrames).status == 0) &&
    (forall j :: 0 <= j < |deliveries| ==> sink(j) == 0)
  }

  /**
   * A run that ended on a non-zero status: either its last engine call
   * failed with that status after everything before succeeded, or its last
   * callback did after every engine call succeeded.
   */
  ghost predicate StoppedAtFailure(engine: (nat, nat) -> EngineReply, sink: nat -> int, t: Trace)
  {
    t.calls != [] &&
    ((engine(|t.calls| - 1, t.calls[|t.calls| - 1].inputFrames).status == t.status &&
      AllSucceeded(engine, sink, t.calls[..|t.calls| - 1], t.deliveries)) ||
     (t.deliveries != [] && sink(|t.deliveries| - 1) == t.status &&
      AllSucceeded(engine, sink, t.calls, t.deliveries[..|t.deliveries| - 1])))
  }

  /** A run that ends with status 0 saw only successes. */
  lemma {:induction false} RunSucceeded(engine: (nat, nat) -> EngineReply, sink: nat -> int,
                                        hasCallback: bool, channels: nat, ratio: real, nframes: nat, consumed: nat,
                                        calls: seq<EngineCall>, deliveries: seq<Delivery>)
    requires consumed <= nframes && Progress(engine)
    requires AllSucceeded(engine, sink, calls, deliveries)
    ensures var t := Run(engine, sink, hasCallback, channels, ratio, nframes, consumed, calls, deliveries);
      t.status == 0 ==> AllSucceeded(engine, sink, t.calls, t.deliveries)
    decreases nframes - consumed
  {
    if consumed < nframes {
      var reply := engine(|calls|, nframes - consumed);
      var calls' := calls + [EngineCall(channels * consumed, nframes - consumed, ratio)];
      assert calls'[..|calls'| - 1] == calls;
      if reply.status == 0 {
        assert AllSucceeded(engine, sink, calls', deliveries);
        if hasCallback {
          var deliveries' := deliveries + [Delivery(reply.generated, reply.output)];
          assert deliveries'[..|deliveries'| - 1] == deliveries;
          if sink(|deliveries|) == 0 {
            RunSucceeded(engine, sink, hasCallback, channels, ratio, nframes, consumed + reply.used, calls', deliveries');
          }
        } else {
          RunSucceeded(engine, sink, hasCallback, channels, ratio, nframes, consumed + reply.used, calls', deliveries);
        }
      }
    }
  }

  /**
   * The loop stops at the first non-zero status: any status but 0 is that
   * of the first failing engine call or callback, and nothing ran after it.
   */
  lemma {:induction false} RunStopsAtFirstFailure(engine: (nat, nat) -> EngineReply, sink: nat -> int,
                                                  hasCallback: bool, channels: nat, ratio: real, nframes: nat, consumed: nat,
                                                  calls: seq<EngineCall>, deliveries: seq<Delivery>)
    requires consumed <= nframes && Progress(engine)
    requires AllSucceeded(engine, sink, calls, deliveries)
    ensures var t := Run(engine, sink, hasCallback, channels, ratio, nframes, consumed, calls, deliveries);
      t.status != 0 ==> StoppedAtFailure(engine, sink, t)
    decreases nframes - consumed
  {
    if consumed < nframes {
      var reply := engine(|calls|, nframes - consumed);
      var calls' := calls + [EngineCall(channels * consumed, nframes - consumed, ratio)];
      assert calls'[..|calls'| - 1] == calls;
      if reply.status == 0 {
        assert AllSucceeded(engine, sink, calls', deliveries);
        if hasCallback {
          var deliveries' := deliveries + [Delivery(reply.generated, reply.output)];
          assert deliveries'[..|deliveries'| - 1] == deliveries;
          if sink(|deliveries|) == 0 {
            RunStopsAtFirstFailure(engine, sink, hasCallback, channels, ratio, nframes, consumed + reply.used, calls', deliveries');
          }
        } else {
          RunStopsAtFirstFailure(engine, sink, hasCallback, channels, ratio, nframes, consumed + reply.used, calls', deliveries);
        }
      }
    }
  }

  /*------------------------------------------------------------------
   * The loop as written, on an engine that makes no progress
   *------------------------------------------------------------------*/

  /**
   * remaining_frames after at most k passes of the loop body without a
   * callback, taken exactly as written: a call that reports status 0
   * subtracts input_frames_used, whatever it is, and the loop goes on while
   * the status is 0 and frames remain.
   */
  ghost function RemainingAfter(engine: (nat, nat) -> EngineReply, remaining: int, calls: nat, k: nat): int
    decreases k
  {
    if k == 0 || remaining <= 0 then remaining
    else
      var reply := engine(calls, remaining);
      if reply.status != 0 then remaining
      else RemainingAfter(engine, remaining - reply.used, calls + 1, k - 1)
  }

  /** src_process succeeding on an empty output buffer without taking any input. */
  function StalledEngine(call: nat, offered: nat): (reply: EngineReply)
    ensures reply.status == 0 && reply.used == 0 && reply.generated == 0
  {
    EngineReply(0, 0, 0, [])
  }

  /**
   * An engine that succeeds without using any frame leaves remaining_frames
   * where it was after any number of passes, so the loop never ends; such
   * an engine is exactly what Progress rules out.
   */
  lemma {:induction false} StalledLoopNeverEnds(remaining: int, calls: nat, k: nat)
    requires remaining > 0
    ensures RemainingAfter(StalledEngine, remaining, calls, k) == remaining
    ensures !Progress(StalledEngine)
    decreases k
  {
    assert StalledEngine(0, 1).used == 0;
    if k > 0 {
      StalledLoopNeverEnds(remaining, calls + 1, k - 1);
    }
  }

  /*------------------------------------------------------------------
   * The resampler object
   *------------------------------------------------------------------*/

  class Resampler {
    var state: SrcState
    var channels: nat
    var passthrough: bool
    var srcRate: int
    var destRate: int
    var ratio: real
    var quality: int
    var hasCallback: bool

    /**
     * Passthrough mode never sets the engine state (it keeps whatever the
     * allocation held); converting mode has an engine for the stored channels.
     */
    ghost predicate Valid()
      reads this
    {
      srcRate != 0 &&
      (passthrough ==> state == Uninitialised) &&
      (!passthrough ==> state == Engine(quality, channels))
    }

    /**
     * The fields aojack_new_resampler sets before creating the engine, with
     * the quality mapped as written; `state` is left as malloc returned it.
     */
    constructor (nchannels: nat, srcRate: int, destRate: int, quality: nat, hasCallback: bool)
      requires srcRate != 0 && quality < TwoTo64
      ensures this.channels == nchannels && this.srcRate == srcRate && this.hasCallback == hasCallback
      ensures this.passthrough == (srcRate == destRate)
      ensures this.destRate == destRate && this.ratio == destRate as real / srcRate as real
      ensures this.quality == QualityLevels[QualityIndexAsWritten(quality)]
      ensures this.state == Uninitialised
    {
      this.channels := nchannels;
      this.passthrough := srcRate == destRate;
      this.srcRate := srcRate;
      this.destRate := destRate;
      this.ratio := destRate as real / srcRate as real;
      this.quality := QualityLevels[QualityIndexAsWritten(quality)];
      this.hasCallback := hasCallback;
      this.state := Uninitialised;
    }

    /**
     * aojack_change_resampler_rate: stores the new destination rate and
     * the ratio dest/src; passthrough mode is not re-evaluated.
     */
    method ChangeRate(destRate: int)
      requires srcRate != 0
      modifies this
      ensures srcRate == old(srcRate)
      ensures this.destRate == destRate && ratio == destRate as real / srcRate as real
      ensures state == old(state) && channels == old(channels) && passthrough == old(passthrough)
      ensures quality == old(quality) && hasCallback == old(hasCallback)
    {
      this.destRate := destRate;
      ratio := destRate as real / srcRate as real;
    }

    /**
     * aojack_resample_frames. Passthrough mode hands the frames to the
     * callback unchanged, once (it calls the callback without testing it,
     * so a passthrough resampler needs one). Converting mode runs
     * src_process on the remaining frames until all are used or a status is
     * non-zero, handing each call's output to the callback when one is set.
     */
    method ResampleFrames(nframes: nat, data: seq<Float32>, engine: (nat, nat) -> EngineReply, sink: nat -> int)
      returns (status: int, calls: seq<EngineCall>, deliveries: seq<Delivery>)
      requires Valid() && channels * nframes <= |data|
      requires passthrough ==> hasCallback
      requires !passthrough ==> Progress(engine)
      ensures passthrough ==>
        status == sink(0) && calls == [] && deliveries == [Delivery(nframes, data[..channels * nframes])]
      ensures !passthrough ==>
        var t := Convert(engine, sink, hasCallback, channels, ratio, nframes);
        status == t.status && calls == t.calls && deliveries == t.deliveries
      ensures forall j :: 0 <= j < |calls| ==> calls[j].ratio == ratio
    {
      if passthrough {
        status := sink(0);
        calls, deliveries := [], [Delivery(nframes, data[..channels * nframes])];
      } else {
        status, calls, deliveries := ConvertLoop(channels, ratio, hasCallback, nframes, engine, sink);
        RunAccounting(engine, sink, hasCallback, channels, ratio, nframes, 0, [], []);
      }
    }

    /**
     * The converting branch of aojack_resample_frames: while the status is
     * 0 and frames remain, src_process gets every remaining frame at the
     * data pointer, the callback (when set) the frames it generated, and
     * the pointer advances by the frames it used.
     */
    static method ConvertLoop(nchannels: nat, ratio: real, hasCallback: bool, nframes: nat,
                              engine: (nat, nat) -> EngineReply, sink: nat -> int)
      returns (status: int, calls: seq<EngineCall>, deliveries: seq<Delivery>)
      requires Progress(engine)
      ensures var t := Convert(engine, sink, hasCallback, nchannels, ratio, nframes);
        status == t.status && calls == t.calls && deliveries == t.deliveries
    {
      calls, deliveries := [], [];
      status := 0;
      var remaining: int := nframes;  // remaining_frames is a signed long
      var offset := 0;
      ghost var whole := Convert(engine, sink, hasCallback, nchannels, ratio, nframes);
      while status == 0 && remaining > 0
        invariant 0 <= remaining <= nframes && offset == nchannels * (nframes - remaining)
        invariant status == 0 ==> whole == Run(engine, sink, hasCallback, nchannels, ratio, nframes, nframes - remaining, calls, deliveries)
        invariant status != 0 ==> whole == Trace(status, calls, deliveries, nframes - remaining)
        decreases remaining, if status == 0 then 1 else 0
      {
        var reply := engine(|calls|, remaining);
        calls := calls + [EngineCall(offset, remaining, ratio)];
        status := reply.status;
        if status == 0 {
          if hasCallback {
            status := sink(|deliveries|);
            deliveries := deliveries + [Delivery(reply.generated, reply.output)];
          }
          remaining := remaining - reply.used;
          offset := offset + reply.used * nchannels;
        }
      }
    }
  }

  /**
   * aojack_new_resampler: NULL when the allocation fails, or when a
   * converting resampler's src_new fails; otherwise a resampler in
   * passthrough mode exactly when the rates are equal, with the quality
   * mapped as written and an engine only in converting mode (passthrough
   * leaves `state` unset).
   */
  method NewResampler(nchannels: nat, srcRate: int, destRate: int, quality: nat, hasCallback: bool,
                      allocOk: bool, engineOk: bool)
    returns (r: Resampler?)
    requires srcRate != 0 && quality < TwoTo64
    ensures r == null <==> !allocOk || (srcRate != destRate && !engineOk)
    ensures r != null ==> fresh(r) && r.Valid()
    ensures r != null ==> r.passthrough == (srcRate == destRate) && r.channels == nchannels
    ensures r != null ==> r.srcRate == srcRate && r.destRate == destRate && r.hasCallback == hasCallback
    ensures r != null ==> r.ratio == destRate as real / srcRate as real
    ensures r != null ==> r.quality == QualityLevels[QualityIndexAsWritten(quality)]
    ensures r != null ==> r.state == InitialStateAsWritten(r.passthrough, r.quality, nchannels)
  {
    if !allocOk {
      return null;
    }
    r := new Resampler(nchannels, srcRate, destRate, quality, hasCallback);
    if !r.passthrough {
      if !engineOk {
        return null;
      }
      r.state := Engine(r.quality, nchannels);
    }
  }

  /**
   * aojack_delete_resampler: nothing for NULL; otherwise `state` is tested,
   * and the engine released and the state cleared when there is one.
   * Reports what the test did, including a test of a state never set.
   */
  method DeleteResampler(r: Resampler?) returns (step: DeleteStep)
    modifies r
    ensures r == null ==> step == Skip
    ensures r != null ==> step == DeleteStepFor(old(r.state))
    ensures step == ReleaseEngine <==> r != null && old(r.state).Engine?
    ensures r != null ==> r.state == (if old(r.state).Engine? then NoState else old(r.state))
  {
    step := Skip;
    if r != null {
      step := DeleteStepFor(r.state);
      if step == ReleaseEngine {
        r.state := NoState;
      }
    }
  }
}
