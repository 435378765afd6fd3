# libao JACK output plugin — a Dafny model of its data path

libao's JACK plugin (`src/plugins/jack/ao_jack.c`, `src/plugins/jack/ao_jack_resample.c`)
plays an application's PCM buffer on a JACK server. `ao_plugin_play` decodes the
buffer into samples and hands it, in chunks, to a sample-rate converter. The
converter's callback deinterleaves each batch of frames. The producer then writes
each channel's samples into that channel's ring buffer. JACK's process callback
(the consumer) drains every ring into its port buffer once per period and pads
with silence.

The model is split into modules that follow that structure:

- `CTypes` (ctypes.dfy): bytes, the signed plain `char` of x86 ABIs, 32-bit
  wrap-around, and the byte image of a 32-bit float. Floats are never
  interpreted.
- `Ring` (ring.dfy): the contract of a JACK ring buffer as the plugin uses it.
  It is a bounded byte FIFO where a write takes `min(n, write space)` bytes and
  a read removes up to `n` bytes from the front.
- `SampleFormat` (sample_format.dfy): the 8-, 16-, 24- and 32-bit decoders as
  array-filling loops.
  - A decoder yields the integer numerator of each sample. The divisor
    (128, 32768, 4194304, 2147483648) is kept as a named constant.
  - The 24-bit decoder is modelled twice: as written, with its defects, and
    as the packed little-endian decoder it was meant to be. Play uses the
    as-written one.
- `Deinterleave` (deinterleave.dfy): `deinterleave_frames` as a nested loop over
  arrays, proved against a channel-major permutation function and its inverse.
- `Options` (options.dfy): `parse_comma_separated_option` and
  `free_string_array`.
  - `strtok_r` is a function over a save index.
  - Its results are proved equal to the non-empty comma-separated fields.
  - The result array is grown by doubling, as `realloc` does in the source.
- `Resample` (resample.dfy): the `aojack_resampler_t` object as a class.
  - `src_new` is a success flag.
  - `src_process` is an engine oracle that reports frames used and generated.
  - The callback is a status oracle.
  - The conversion loop is proved equal to a recursive trace function. The
    lemmas about its accounting are proved on that function.
- `JackPlugin` (jack_plugin.dfy): `ao_jack_internal` as a class.
  - The class holds a sequence of rings and the `jack_shutdown` flag.
  - Ghost histories record every byte each ring accepted and handed out.
  - One method each models a producer pass, a consumer period,
    `write_deinterleaved_frames`, `on_frames_available`, `ao_plugin_play` and
    `ao_plugin_set_option`.

Concurrency is modelled by interleaving. `write_deinterleaved_frames` consumes one
`Turn` of a schedule per pass. A turn says whether the mutex lock succeeds,
which consumer periods JACK runs meanwhile, and whether JACK shuts down. The
condition wait is a step that changes no ring.

The plugin counts bytes, never whole samples, on both sides of a ring. The model
works at byte level for this reason: `PassSplitsSample` and `PartialSampleIsLost`
show a sample being split by the producer and dropped by the consumer.

`array_uint8_to_float`'s name suggests unsigned input, but it reads each byte
through a plain `char` (ao_jack.c:216-221), which is signed on the x86 ABIs, and
removes no bias. The model follows the code (`ArrayUint8ToFloat`).

## Model

| member | source | states |
|---|---|---|
| CTypes.SignedChar | src/plugins/jack/ao_jack.c:221 | a byte read through a plain char is the unique value in [-128, 128) congruent to it modulo 256 |
| CTypes.SignedCharRoundTrip | src/plugins/jack/ao_jack.c:221 | reading a byte as a signed char and converting it back is the identity, in both directions |
| CTypes.Silence | src/plugins/jack/ao_jack.c:300-304 | n zero floats are 4n bytes, every one of them zero |
| CTypes.FloatBytesAppend | src/plugins/jack/ao_jack.c:352 | the byte image of a float buffer is the concatenation of the images of its parts |
| Ring.Accepted | src/plugins/jack/ao_jack.c:355 | a ring write takes all bytes offered or exactly the write space, never more than either |
| Ring.AfterWrite | src/plugins/jack/ao_jack.c:355 | a write keeps the capacity and grows the readable bytes by exactly the accepted count |
| Ring.WriteAppends | src/plugins/jack/ao_jack.c:355 | after a write the old content is still in front and the accepted prefix of the offer follows it |
| Ring.WriteWithinSpace | src/plugins/jack/ao_jack.c:342-355 | an offer no larger than the write space is appended whole and shrinks the write space by its length |
| Ring.Delivered | src/plugins/jack/ao_jack.c:296 | a ring read delivers all bytes requested or everything readable, never more than either |
| Ring.ReadBytes | src/plugins/jack/ao_jack.c:296 | a read copies out exactly the delivered count of bytes |
| Ring.AfterRead | src/plugins/jack/ao_jack.c:296 | the bytes read followed by what remains are the old content: reads take from the front |
| Ring.WriteThenRead | src/plugins/jack/ao_jack.c:288-296 | first in, first out: after a write, a read returns the old content before any new byte |
| Ring.ReadFreesSpace | src/plugins/jack/ao_jack.c:296 | a read frees exactly the space of the bytes it delivered |
| SampleFormat.Int16LE | src/plugins/jack/ao_jack.c:228-229 | a 16-bit little-endian load is the value in [-32768, 32768) congruent to lo + 256 * hi |
| SampleFormat.Int16RoundTrip | src/plugins/jack/ao_jack.c:228-229 | the 16-bit load and the 16-bit store encoding are inverse to each other in both directions |
| SampleFormat.Int32LE | src/plugins/jack/ao_jack.c:271-272 | a 32-bit little-endian load lies in [-2^31, 2^31) |
| SampleFormat.Int32RoundTrip | src/plugins/jack/ao_jack.c:271-272 | loading the stored bytes of a 32-bit value gives the value back |
| SampleFormat.Int32Injective | src/plugins/jack/ao_jack.c:271-272 | storing a loaded 32-bit value gives back the four bytes it was loaded from |
| SampleFormat.ArrayUint8ToFloat | src/plugins/jack/ao_jack.c:216-222 | dest[i] is byte i read as a signed char for exactly i < nvalues, so every sample over 128 lies in [-1, 1); no other entry changes |
| SampleFormat.ArrayUint16ToFloat | src/plugins/jack/ao_jack.c:224-230 | dest[i] is the signed little-endian value of bytes [2i, 2i+2) for exactly i < nvalues; no other entry changes |
| SampleFormat.ArrayUint32ToFloat | src/plugins/jack/ao_jack.c:267-273 | dest[i] is the signed little-endian value of bytes [4i, 4i+4) for exactly i < nvalues; no other entry changes |
| SampleFormat.Int24ToFloat | src/plugins/jack/ao_jack.c:232-238 | values below 2^22 keep their value, values in [2^22, 2^24) become v - 2^24, negative values are kept; the divisor is 2^22 |
| SampleFormat.Int24ThresholdTooLow | src/plugins/jack/ao_jack.c:234-237 | the positive 24-bit value 2^22 decodes to -3 full scales while 2^22 - 1 decodes to just under 1 |
| SampleFormat.ReadExtent24Overruns | src/plugins/jack/ao_jack.c:245-264 | the 24-bit decoder reads past 3 * nvalues bytes exactly when nvalues >= 5 |
| SampleFormat.TailAndCollapses | src/plugins/jack/ao_jack.c:257-261 | combining the three shifted tail bytes with & leaves nothing unless the 2nd and 3rd bytes both have the sign bit set |
| SampleFormat.TailArgIsTailWord | src/plugins/jack/ao_jack.c:257 | the integer description of a tail sample's argument equals the bit-level C expression read as int32 |
| SampleFormat.TailSampleIsZero | src/plugins/jack/ao_jack.c:256-264 | a tail sample decodes to zero if and only if its 2nd or 3rd byte is below 128 or its 1st byte is zero |
| SampleFormat.Groups24At | src/plugins/jack/ao_jack.c:246-254 | group k's samples 4k..4k+2 come from the three words at byte 16k; slot 4k+3 keeps its old value |
| SampleFormat.Uint24SkipsFourthSample | src/plugins/jack/ao_jack.c:250-253 | the fourth slot of every complete group is left as it was before the call |
| SampleFormat.Uint24MisreadsFirstSample | src/plugins/jack/ao_jack.c:247-250 | a buffer whose first packed sample is 1 decodes to 0 in slot 0 |
| SampleFormat.Uint24Parts | src/plugins/jack/ao_jack.c:245-264 | the decoder's result splits into the complete groups, the 1..3 tail samples and the untouched rest |
| SampleFormat.Uint24Assemble | src/plugins/jack/ao_jack.c:245-264 | an array that agrees slot by slot with the groups, the tail and the old contents equals their concatenation |
| SampleFormat.StoreGroup24 | src/plugins/jack/ao_jack.c:247-253 | one group pass sets slots i..i+2 (the third stored twice, the second value kept) and no other slot |
| SampleFormat.StoreGroups24 | src/plugins/jack/ao_jack.c:245-254 | the group loop leaves the word pointer at byte 16 * groups and fills 4 * groups slots as the group description says |
| SampleFormat.StoreTail24 | src/plugins/jack/ao_jack.c:255-264 | the tail stores its 1..3 samples, three bytes apiece from the word pointer, and nothing else |
| SampleFormat.ArrayUint24ToFloat | src/plugins/jack/ao_jack.c:240-265 | the whole of dest after the 24-bit decoder, as written, equals the as-written description of groups, tail and untouched slots |
| SampleFormat.Int24LE | src/plugins/jack/ao_jack.c:240-265 | a packed 24-bit little-endian value lies in [-2^23, 2^23) and is congruent to b0 + 256 b1 + 65536 b2 |
| SampleFormat.Int24RoundTrip | src/plugins/jack/ao_jack.c:240-265 | the packed 24-bit decoding and encoding are inverse to each other in both directions |
| SampleFormat.ArrayInt24ToFloat | src/plugins/jack/ao_jack.c:240-265 | the intended decoder: dest[i] is the signed value of bytes [3i, 3i+3) for exactly i < nvalues, reading no byte past 3 * nvalues |
| Deinterleave.SlotUnique | src/plugins/jack/ao_jack.c:324 | c * nframes + f determines c and f when f < nframes |
| Deinterleave.ChannelMajor | src/plugins/jack/ao_jack.c:324 | the destination index c * nframes + f of sample (c, f) is inside the buffer |
| Deinterleave.FrameMajor | src/plugins/jack/ao_jack.c:322-325 | the source index f * nchannels + c of sample (c, f) is inside the buffer |
| Deinterleave.ChannelMajorInjective | src/plugins/jack/ao_jack.c:324 | distinct (channel, frame) pairs go to distinct destination indices |
| Deinterleave.ChannelMajorDistinct | src/plugins/jack/ao_jack.c:324 | no other sample shares the destination index of sample (c, f) |
| Deinterleave.Deinterleaved | src/plugins/jack/ao_jack.c:318-328 | the channel-major permutation puts source[f * nchannels + c] at c * nframes + f for every c and f |
| Deinterleave.Interleaved | src/plugins/jack/ao_jack.c:318-328 | the inverse permutation puts d[c * nframes + f] back at f * nchannels + c |
| Deinterleave.InterleaveDeinterleave | src/plugins/jack/ao_jack.c:318-328 | re-interleaving a deinterleaved buffer restores the input exactly |
| Deinterleave.DeinterleaveInterleave | src/plugins/jack/ao_jack.c:318-328 | deinterleaving a re-interleaved buffer restores it exactly |
| Deinterleave.DeinterleaveOneChannel | src/plugins/jack/ao_jack.c:392-395 | with one channel the permutation is the identity, so skipping the copy changes nothing |
| Deinterleave.DeinterleaveFrames | src/plugins/jack/ao_jack.c:318-328 | the first nchannels * nframes entries of destination become the deinterleaved source and nothing beyond them is written |
| Deinterleave.DeinterleaveFrame | src/plugins/jack/ao_jack.c:323-326 | the inner loop puts frame f's samples at c * nframes + f, keeps earlier frames in place and writes nothing past the buffer |
| Options.SplitAtCommas | src/plugins/jack/ao_jack.c:136 | splitting a string at every comma yields at least one field |
| Options.NonEmpty | src/plugins/jack/ao_jack.c:136 | dropping empty fields leaves only non-empty strings and no more of them than there were |
| Options.NonEmptyAppend | src/plugins/jack/ao_jack.c:136 | dropping empty fields distributes over concatenation |
| Options.SkipCommas | src/plugins/jack/ao_jack.c:136 | strtok_r's scan skips exactly the run of commas from the save position |
| Options.TokenEnd | src/plugins/jack/ao_jack.c:136 | a token runs up to the next comma or the end of the string, and contains no comma |
| Options.StrTok | src/plugins/jack/ao_jack.c:136 | one strtok_r call returns NULL only at the end of the string, else a non-empty comma-free token, and advances the save position |
| Options.TokensAreFields | src/plugins/jack/ao_jack.c:135-149 | successive strtok_r calls return exactly the non-empty comma-separated fields, in order |
| Options.Pointers | src/plugins/jack/ao_jack.c:146 | a list of names as array entries is one non-NULL pointer per name, in order |
| Options.DoublePowerOfTwo | src/plugins/jack/ao_jack.c:137-142 | doubling keeps the array size a power of two |
| Options.Store | src/plugins/jack/ao_jack.c:137-146 | a store into a full array first doubles it, keeping the old entries, then sets entry n |
| Options.NextToken | src/plugins/jack/ao_jack.c:136-149 | the next strtok_r call returns NULL exactly when every name has been returned, else the next name |
| Options.Terminated | src/plugins/jack/ao_jack.c:146-149 | an array prefix of one pointer per name and then NULL is the terminated name list |
| Options.StoreNextToken | src/plugins/jack/ao_jack.c:136-148 | one pass stores the next strtok_r result at entry n; it is NULL exactly when all names are stored, and then the array holds the terminated list |
| Options.ParseCommaSeparatedOption | src/plugins/jack/ao_jack.c:127-151 | the result holds the non-empty fields in input order followed by exactly one NULL, in a power-of-two array at most twice the needed size |
| Options.FreeStringArray | src/plugins/jack/ao_jack.c:156-165 | a NULL array frees nothing; otherwise every entry before the first NULL is freed and that NULL ends the walk |
| Resample.QualityIndexAsWritten | src/plugins/jack/ao_jack_resample.c:62-65 | the table index, with the 64-bit product wrapping, is always inside the five-entry table |
| Resample.QualityIndex | src/plugins/jack/ao_jack_resample.c:43-65 | the intended index is quality * 5 / 10 below 10 and the last table entry from 10 on |
| Resample.QualityIndexAgrees | src/plugins/jack/ao_jack_resample.c:62-65 | for quality below 10 the as-written index is quality * 5 / 10 |
| Resample.QualityAboveNineIsLinear | src/plugins/jack/ao_jack_resample.c:43-65 | as written, every quality from 10 up to, but not including, 2^64/5 selects SRC_LINEAR while 9 selects SRC_SINC_BEST_QUALITY |
| Resample.QualityWrapsPastLimit | src/plugins/jack/ao_jack_resample.c:62-65 | from 2^64/5 on the 64-bit product wraps and the as-written mapping picks converters by the wrapped value: (2^64 + 24)/5 selects SRC_SINC_FASTEST |
| Resample.QualityIndexMonotone | src/plugins/jack/ao_jack_resample.c:43-51 | with the intended mapping more quality never selects a cheaper converter |
| Resample.DeleteStepFor | src/plugins/jack/ao_jack_resample.c:88-91 | delete releases the state exactly when it holds an engine and reads garbage exactly when it is uninitialised |
| Resample.InitialState | src/plugins/jack/ao_jack_resample.c:68-74 | the intended initialisation, with the state set to NULL in passthrough mode: an engine exactly when not in passthrough mode, and never an unset state |
| Resample.PassthroughDeleteReadsUninitialised | src/plugins/jack/ao_jack_resample.c:55-88 | as written, deleting a passthrough resampler tests a state field that was never set |
| Resample.DeleteReleasesOnlyEngines | src/plugins/jack/ao_jack_resample.c:85-94 | with the state set to NULL in passthrough mode, delete never reads garbage and releases an engine exactly when it converts |
| Resample.RunAccounting | src/plugins/jack/ao_jack_resample.c:104-121 | frames used never exceed nframes and add up to nframes when the status is 0; every call gets the remaining frames at offset used * nchannels and the ratio read before the loop |
| Resample.RunCounts | src/plugins/jack/ao_jack_resample.c:112-121 | there is no engine call when no frames remain; the callback gets one delivery per successful engine call, none without a callback |
| Resample.RunSucceeded | src/plugins/jack/ao_jack_resample.c:112-125 | a conversion that returns 0 saw only successful engine calls and callbacks |
| Resample.RunStopsAtFirstFailure | src/plugins/jack/ao_jack_resample.c:112-125 | a non-zero status is that of the last engine call or callback, and everything before it succeeded |
| Resample.StalledLoopNeverEnds | src/plugins/jack/ao_jack_resample.c:108-121 | a src_process that succeeds without using a frame leaves remaining_frames unchanged after any number of passes, so the loop never ends; such an engine violates Progress |
| Resample.Resampler.constructor | src/plugins/jack/ao_jack_resample.c:53-67 | stores channels, rates, ratio dest/src and the quality mapped as written; passthrough exactly when the rates are equal; the state is left unset |
| Resample.Resampler.ChangeRate | src/plugins/jack/ao_jack_resample.c:79-83 | sets dest_rate and ratio dest/src and nothing else; passthrough is not re-evaluated |
| Resample.Resampler.ResampleFrames | src/plugins/jack/ao_jack_resample.c:96-126 | passthrough calls the callback, which it does not test and so must exist, once with the frames unchanged and returns its status; converting mode returns the status, engine calls and deliveries of the conversion trace; every src_process call gets the resampler's ratio at entry |
| Resample.Resampler.ConvertLoop | src/plugins/jack/ao_jack_resample.c:103-123 | the while loop makes exactly the engine calls and deliveries of the conversion trace and returns its status |
| Resample.NewResampler | src/plugins/jack/ao_jack_resample.c:53-77 | NULL iff allocation fails or a converting resampler's src_new fails; otherwise passthrough iff the rates are equal, ratio dest/src, the quality mapped as written, an engine in converting mode and an unset state in passthrough mode |
| Resample.DeleteResampler | src/plugins/jack/ao_jack_resample.c:85-94 | NULL is ignored; otherwise the state is tested: an engine is released and the state cleared exactly when there is one, and testing a passthrough resampler's unset state is reported |
| JackPlugin.MinWriteSpaceIsMinimum | src/plugins/jack/ao_jack.c:342-347 | the producer's scan yields the write space of one of rings 0..n-1, at most that of every other |
| JackPlugin.PassNeverMismatches | src/plugins/jack/ao_jack.c:342-360 | every ring takes the whole amount a pass offers, so the mismatch error return is unreachable; nothing is offered iff nothing is pending or some ring is full |
| JackPlugin.AvailableAligned | src/plugins/jack/ao_jack.c:342-349 | with sample-aligned rings and whole pending samples, a pass moves whole samples |
| JackPlugin.MinWriteSpaceAligned | src/plugins/jack/ao_jack.c:342-347 | the least write space of sample-aligned rings is a multiple of four |
| JackPlugin.SpaceAligned | src/plugins/jack/ao_jack.c:342 | a ring with whole-sample capacity and content has whole-sample write space |
| JackPlugin.PassSplitsSample | src/plugins/jack/ao_jack.c:342-355 | a ring with a write space that is not a multiple of four receives part of a sample |
| JackPlugin.ChannelFits | src/plugins/jack/ao_jack.c:352-361 | channel c's block of channel_size bytes lies inside the nchannels * channel_size buffer |
| JackPlugin.Blocks | src/plugins/jack/ao_jack.c:352-361 | the producer's view of the buffer is nchannels blocks, block c being the channel_size bytes from c * channel_size |
| JackPlugin.Block | src/plugins/jack/ao_jack.c:352-361 | block c has exactly channel_size bytes |
| JackPlugin.PossibleBytes | src/plugins/jack/ao_jack.c:288-294 | the intended request is everything available or the port buffer's size, whichever is smaller |
| JackPlugin.ConsumerOverrunsPortBuffer | src/plugins/jack/ao_jack.c:288-296 | the request as written exceeds the port buffer iff exactly nframes whole samples plus a partial one are available; otherwise it agrees with the bounded one |
| JackPlugin.AsWrittenReadsSameSamples | src/plugins/jack/ao_jack.c:288-300 | the request as written reads as many whole samples as the bounded one, so the port plays the same samples |
| JackPlugin.PortBuffer | src/plugins/jack/ao_jack.c:296-304 | a period's port buffer always has exactly nframes samples |
| JackPlugin.PortBufferContents | src/plugins/jack/ao_jack.c:296-304 | the port plays the oldest whole samples of its ring and then zeros up to nframes |
| JackPlugin.AlignedReadIsPlayed | src/plugins/jack/ao_jack.c:296-304 | when a whole number of samples is read, every byte read out of the ring is played |
| JackPlugin.Internal.FillPort | src/plugins/jack/ao_jack.c:287-304 | one port's buffer after the read of the request as written and the silence fill is the port-buffer function of its ring |
| JackPlugin.PartialSampleIsLost | src/plugins/jack/ao_jack.c:289-304 | a partial sample is removed from the ring but replaced by silence in the port |
| JackPlugin.NValuesWraps | src/plugins/jack/ao_jack.c:594 | num_bytes * 8 is a 32-bit product: 512 MiB of 16-bit data counts as no value at all |
| JackPlugin.PlayDecoderOverrunsBuffer | src/plugins/jack/ao_jack.c:594-623 | three 16-bit values on two channels: the decoder writes three floats into a two-float buffer |
| JackPlugin.ChunksTile | src/plugins/jack/ao_jack.c:626-632 | play's chunks start at 0, max, 2 * max, ..., none is empty or longer than max, and their lengths add up to nframes |
| JackPlugin.PassWrite | src/plugins/jack/ao_jack.c:352-364 | a pass writes bytes [from, to) of block c to ring c for every channel and leaves the other ports' rings alone |
| JackPlugin.PassAccepted | src/plugins/jack/ao_jack.c:352-364 | a pass records bytes [from, to) of block c as accepted by ring c and nothing for other rings |
| JackPlugin.PassKeepsConsistent | src/plugins/jack/ao_jack.c:354-364 | a pass that fits keeps every ring equal to what it accepted minus what it handed out |
| JackPlugin.PassAcceptedNothing | src/plugins/jack/ao_jack.c:365-375 | a pass that writes nothing records nothing |
| JackPlugin.PassWriteNothing | src/plugins/jack/ao_jack.c:365-375 | a pass that writes nothing changes no ring |
| JackPlugin.PassAcceptedTrans | src/plugins/jack/ao_jack.c:363-364 | two consecutive passes record the concatenation of what each wrote |
| JackPlugin.Internal.OnJackShutdown | src/plugins/jack/ao_jack.c:119-122 | raises the shutdown flag and changes nothing else: no ring, no byte history, no setting |
| JackPlugin.Internal.OnSampleRateUpdate | src/plugins/jack/ao_jack.c:174-181 | sets output_rate and nothing else of the plugin; the resampler, when there is one, gets dest_rate new and ratio new/src and keeps its state, quality, channels, source rate, callback and passthrough mode |
| JackPlugin.Internal.SetOption | src/plugins/jack/ao_jack.c:463-485 | returns 1 for client_name, dev, id, ports and quality and 0 otherwise; exactly the key's own setting changes, ports to the parsed terminated list, and no other field, ring or history |
| JackPlugin.Internal.PassStep | src/plugins/jack/ao_jack.c:341-375 | a pass writes the least write space capped at what is left to every channel ring, or waits or fails on the lock when nothing can be written |
| JackPlugin.Internal.ProducerPass | src/plugins/jack/ao_jack.c:341-375 | the same pass on the plugin's rings, keeping each ring equal to what it accepted minus what it handed out and changing no setting |
| JackPlugin.Internal.PassAvailable | src/plugins/jack/ao_jack.c:342-349 | the pass's byte count is the least write space capped at the bytes left |
| JackPlugin.Internal.MinimumWriteSpace | src/plugins/jack/ao_jack.c:342-347 | the scan loop computes the least write space of rings 0..nchannels-1 |
| JackPlugin.Internal.WriteChannels | src/plugins/jack/ao_jack.c:351-364 | the write loop offers `available` bytes of block c to ring c, each ring takes them all, and written equals available |
| JackPlugin.Internal.ProducerTurn | src/plugins/jack/ao_jack.c:340-375 | one pass, then the JACK thread's periods and shutdown; a failed lock ends the call with the rings, both byte histories and the shutdown flag unchanged; no setting changes |
| JackPlugin.Internal.WriteDeinterleavedFrames | src/plugins/jack/ao_jack.c:333-378 | returns 0 when all 4 * nframes bytes of each channel are written or shutdown is seen, -1 only after a failed lock; every ring received a prefix of its block; no setting changes |
| JackPlugin.Internal.ConsumerPeriod | src/plugins/jack/ao_jack.c:278-306 | each ring loses from its front the bytes the request asks for as written, up to a partial sample more than the port holds, which become its handed-out history; its port plays the oldest whole samples, padded with silence; nframes 0 touches nothing; no setting changes |
| JackPlugin.Internal.ConsumeRings | src/plugins/jack/ao_jack.c:287-305 | the port loop: ring c keeps what follows the request as written, the bytes taken are its oldest ones and port c gets the port-buffer function of the ring |
| JackPlugin.Internal.RunPeriods | src/plugins/jack/ao_jack.c:278-313 | consumer periods keep the rings consistent and change neither the accepted bytes, the shutdown flag nor any setting |
| JackPlugin.Internal.OnFramesAvailable | src/plugins/jack/ao_jack.c:385-402 | ring c receives channel c's samples in frame order, as bytes, with the producer's status and outcome; after shutdown it returns 0 at once and writes nothing; no setting changes |
| JackPlugin.Internal.ChannelMajorBlocks | src/plugins/jack/ao_jack.c:389-397 | the buffer the producer walks is, block by block, each channel's samples in frame order, with or without the deinterleaving copy |
| JackPlugin.Internal.Play | src/plugins/jack/ao_jack.c:590-636 | returns 0 without decoding after shutdown or with too many channels; otherwise decodes whole frames, 24-bit ones with the as-written decoder, and returns 1 iff every chunk of the plan succeeded, stopping at the first failure |
| JackPlugin.Internal.ResampleChunks | src/plugins/jack/ao_jack.c:626-632 | the chunk loop hands over a prefix of the chunk plan, stops at the first non-zero status and succeeds iff it handed over the whole plan |
| JackPlugin.Internal.DecodeInto | src/plugins/jack/ao_jack.c:615-624 | at 8, 16 and 32 bits every decoded value is the sample at its index, within the input; at 24 bits the buffer is what array_uint24_to_float, as written, leaves in it |
| JackPlugin.WholeFrames | src/plugins/jack/ao_jack.c:595-598 | nchannels * nframes never exceeds nvalues |
| JackPlugin.NValuesFit | src/plugins/jack/ao_jack.c:594-623 | nvalues values of 8, 16, packed 24 or 32 bits take at most num_bytes bytes, so the 8-, 16- and 32-bit decoders never read past num_bytes |
| JackPlugin.ChannelSamples | src/plugins/jack/ao_jack.c:318-328 | channel c's samples in frame order are the interleaved samples f * nchannels + c |
| JackPlugin.ChannelBlocks | src/plugins/jack/ao_jack.c:352-361 | nchannels blocks of 4 * nframes bytes, block c being channel c's bytes |
| JackPlugin.DeinterleavedChannelBlocks | src/plugins/jack/ao_jack.c:352-361 | the blocks the producer walks in the deinterleaved buffer are each channel's samples in frame order |
| JackPlugin.DeinterleavedChannelBytes | src/plugins/jack/ao_jack.c:352-361 | block c of the deinterleaved buffer's bytes is channel c's bytes |

## Left out

- The JACK client and port lifecycle (ao_plugin_test, ao_plugin_open, close_internal, device init and clear, driver info) is foreign libjack code. The rings are a field of the plugin object and their number stands for nports.
- The pthread mutex and condition variable are not modelled. A wait is a step that changes no ring, and the lock's success is an input of each producer turn. The consumer's signal at the end of a period is left out.
- Threads run by interleaving turns, not truly in parallel. jack_shutdown and output_rate are fields set by their own methods.
- Floating point is not modelled. Decoders yield integer numerators and the divisor is a constant. A float is its 4 bytes. The resampler's double ratio is a real, and the 1.2 output estimate and the data_out buffer are left out.
- libsamplerate (src_new, src_process, src_delete) is foreign code. src_new is a success flag. src_process is an oracle indexed by call number and frames offered, and it does not see the sample data.
- The ring buffer's circular storage and its real capacity are foreign code. Only the FIFO contract the plugin relies on is modelled.
- Logging (aerror, adebug, awarn, on_jack_error) is I/O and is left out.
- malloc, realloc and strdup failures are left out, except the two allocations aojack_new_resampler checks. abort() on realloc failure is left out.
- strtoul is a function parameter of SetOption.
- JackPlugin.Internal.Play: requires max_input_frames > 0 when there is a frame to play, because with 0 the chunk loop never terminates. It decodes only whole frames, which is the corrected behaviour from the Findings. Each chunk's resampler status is an oracle, so the samples handed over are not modelled.
- JackPlugin.Internal.Play: at 24 bits requires the input to hold every byte array_uint24_to_float reads, which from five values on lies past num_bytes; the source reads that memory whatever it holds.
- JackPlugin.Internal.DecodeInto: at 24 bits requires the input to hold every byte the as-written decoder reads, for the same reason.
- JackPlugin.Internal.FillPort: the bytes of an overrunning read that land past the port buffer are not stored anywhere; the ring and its history lose them as the source does.
- Resample.Resampler.ResampleFrames: requires Progress in converting mode (every successful src_process call uses at least one of the frames offered), which the source does not check; a call that succeeds using none makes the loop run forever (see Findings).
- Resample.Resampler.ConvertLoop: requires Progress, for the same reason.
- Resample.NewResampler: quality is an unsigned long, so it is below 2^64. A source rate of 0, for which the C computes an infinite double ratio, is excluded, because the model's ratio is a real.
- JackPlugin.Internal.WriteDeinterleavedFrames: the rings' new contents are stated through the accepted-bytes history and the consistency invariant, not as a direct formula. A schedule that runs out before the call returns yields None.
- JackPlugin.Internal.RunPeriods: states only what the periods preserve. What each period reads is stated by ConsumerPeriod.
- Resample.Resampler.ResampleFrames: the data handed to src_process is recorded as an offset into the buffer, not as samples.
- Options.FreeStringArray: releasing memory is not modelled. The method returns how many names it would free.
- Options.ParseCommaSeparatedOption: the number of stored names is a ghost out-parameter. The result array itself is the real output.

## Findings

| source | as written | input that shows it | evidently intended | confidence | as-written member | corrected member |
|---|---|---|---|---|---|---|
| src/plugins/jack/ao_jack.c:234-237 | int24_to_float treats values from 2^22 up as negative and divides by 2^22 | the positive 24-bit value 0x400000 decodes to -3.0 | sign bit 2^23, full scale 2^23 | high, not executed | SampleFormat.Int24ThresholdTooLow | SampleFormat.Int24RoundTrip |
| src/plugins/jack/ao_jack.c:250-253 | dest[i+2] is assigned twice and dest[i+3] never; sample 4k is taken from bytes 1..3 of the group | bytes 01 00 00 followed by zeros, nvalues 4: slot 0 decodes to 0 and slot 3 keeps its old value | each sample from its own three packed bytes | high, not executed | SampleFormat.Uint24SkipsFourthSample | SampleFormat.ArrayInt24ToFloat |
| src/plugins/jack/ao_jack.c:246 | the word pointer steps 4 words per 3 words read | nvalues 5 reads 19 bytes of a 15-byte buffer | step 3 words per group, never reading past 3 * nvalues bytes | high, not executed | SampleFormat.ReadExtent24Overruns | SampleFormat.ArrayInt24ToFloat |
| src/plugins/jack/ao_jack.c:257-261 | the tail combines the shifted bytes with & | tail bytes 01 02 03 decode to 0 | combine the bytes with bitwise or | high, not executed | SampleFormat.TailSampleIsZero | SampleFormat.ArrayInt24ToFloat |
| src/plugins/jack/ao_jack_resample.c:62-65 | an index past the table is replaced by SRC_SINC_BEST_QUALITY, the enum value 0, which is the index of SRC_LINEAR | quality 10 selects SRC_LINEAR, the cheapest converter | cap at the last index, the best converter | high, not executed | Resample.QualityAboveNineIsLinear | Resample.QualityIndexMonotone |
| src/plugins/jack/ao_jack_resample.c:55-88 | state is never set in passthrough mode, yet delete tests it | equal source and destination rates, then delete | set state to NULL in passthrough mode | high, not executed | Resample.PassthroughDeleteReadsUninitialised | Resample.DeleteReleasesOnlyEngines |
| src/plugins/jack/ao_jack.c:288-296 | possible_bytes stays at available_bytes when available_frames equals nframes | nframes 2 with 11 bytes readable: 11 bytes are read into an 8-byte port buffer | read at most nframes * sizeof(float) bytes | high, not executed | JackPlugin.ConsumerOverrunsPortBuffer | JackPlugin.PortBufferContents |
| src/plugins/jack/ao_jack_resample.c:108-121 | the loop goes on while the status is 0 and frames remain, even after a call that used no frame | nframes 1 at ratio 0.5: output_frames 0.6 truncates to 0, and a src_process that succeeds without using input leaves remaining_frames at 1 forever | stop, or enlarge the output buffer, when a call makes no progress | plausible, not executed | Resample.StalledLoopNeverEnds | Resample.RunAccounting |
| src/plugins/jack/ao_jack.c:594-623 | the decoder writes nvalues floats into a buffer of nchannels * nframes floats | 6 bytes of 16-bit stereo: 3 values into a 2-float buffer | decode whole frames only | high, not executed | JackPlugin.PlayDecoderOverrunsBuffer | JackPlugin.Internal.DecodeInto |
