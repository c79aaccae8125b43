/**
 * The primary audio output stream of the tiny210 audio HAL: its fixed PCM
 * configuration, the standby/active switch, the size and latency it reports,
 * and the write path that paces each submission against the fill level of the
 * kernel's memory-mapped ring buffer before handing it over.
 *
 * The PCM library (tinyalsa) and usleep are outside the model. Their answers
 * are parameters: whether the opened PCM is ready, the successive answers to
 * the timestamp and buffer-size queries, and the result of the mapped write.
 * Every call the stream makes into them is recorded in a ghost log.
 */
module AudioHw {
  import opened Errno

  const DefaultOutSamplingRate: int := 44100
  const MinWriteSleepUs: int := 5000
  const PeriodSize: int := 24 * 80
  const PlaybackPeriodCount: int := 4

  /** The number of frames the kernel may hold before a write waits. */
  const WriteThreshold: int := PlaybackPeriodCount * PeriodSize

  /** Moduli of the 32-bit C integer types of the ARM target. */
  const TwoTo31: int := 0x8000_0000
  const TwoTo32: int := 0x1_0000_0000

  /** A C `unsigned int`. */
  newtype u32 = x: int | 0 <= x < 0x1_0000_0000

  /** Bytes per frame: two channels of 16-bit samples. */
  const FrameSize: int := 4

  // Values of the audio framework's enumerations (system/audio.h).
  const AudioChannelOutStereo: int := 0x3
  const AudioFormatPcm16Bit: int := 0x1

  datatype PcmFormat = PcmFormatS16Le | PcmFormatS32Le | PcmFormatS8 | PcmFormatS24Le

  /** tinyalsa's `struct pcm_config`. */
  datatype PcmConfig = PcmConfig(
    channels: int,
    rate: int,
    periodSize: int,
    periodCount: int,
    format: PcmFormat,
    startThreshold: int,
    stopThreshold: int,
    silenceThreshold: int,
    availMin: int)

  /** The configuration every output stream starts with; the thresholds are zero-filled. */
  const PcmConfigMm: PcmConfig :=
    PcmConfig(2, DefaultOutSamplingRate, PeriodSize, PlaybackPeriodCount, PcmFormatS16Le, 0, 0, 0, 0)

  /** The configuration after start_output_stream has set the start threshold and avail_min. */
  const ActiveConfig: PcmConfig := PcmConfigMm.(startThreshold := PeriodSize * 2, availMin := PeriodSize)

  /** The framework's `struct audio_config`, which opening a stream overwrites. */
  datatype AudioConfig = AudioConfig(sampleRate: int, channelMask: int, format: int)

  /** What the stream reports through its constant getters. */
  const StreamAudioConfig: AudioConfig :=
    AudioConfig(DefaultOutSamplingRate, AudioChannelOutStereo, AudioFormatPcm16Bit)

  function Max(a: int, b: int): int { if a < b then b else a }

  // ---------------------------------------------------------------------------
  // Size and latency
  // ---------------------------------------------------------------------------

  /**
   * out_get_buffer_size: the frames of one period at the stream's rate,
   * rounded up to a multiple of 16 and converted to bytes.
   */
  function OutGetBufferSize(rate: u32): (bytes: int)
    requires rate > 0
    ensures var raw := PeriodSize * DefaultOutSamplingRate / rate as int;
      && bytes % (16 * FrameSize) == 0
      && raw * FrameSize <= bytes < (raw + 16) * FrameSize
  {
    var size := PeriodSize * DefaultOutSamplingRate / rate as int;
    RoundUpBounds(size);
    (size + 15) / 16 * 16 * FrameSize
  }

  /** The "multiple 16" rounding: the least multiple of 16 not below n, in frames and in bytes. */
  lemma RoundUpBounds(n: int)
    requires n >= 0
    ensures var r := (n + 15) / 16 * 16;
      && r % 16 == 0 && n <= r < n + 16
      && (r * FrameSize) % (16 * FrameSize) == 0
      && n * FrameSize <= r * FrameSize < (n + 16) * FrameSize
  {
  }

  /**
   * out_get_latency: the time in milliseconds that a full ring buffer takes to
   * play, rounded down. The product is taken in 32-bit unsigned arithmetic.
   */
  function OutGetLatency(c: PcmConfig): (ms: int)
    requires 0 < c.rate < TwoTo32
    requires 0 <= c.periodSize < TwoTo32 && 0 <= c.periodCount < TwoTo32
    ensures var buffered := (c.periodSize * c.periodCount * 1000) % TwoTo32;
      0 <= ms && ms * c.rate <= buffered < (ms + 1) * c.rate
  {
    var buffered := (c.periodSize * c.periodCount * 1000) % TwoTo32;
    DivisionBounds(buffered, c.rate);
    buffered / c.rate
  }

  lemma DivisionBounds(n: int, d: int)
    requires 0 <= n && 0 < d
    ensures 0 <= n / d && n / d * d <= n < (n / d + 1) * d
  {
    assert n == n / d * d + n % d;
  }

  /** Both configurations a stream can hold report 7680 bytes and 174 ms. */
  lemma StreamSizeAndLatency(c: PcmConfig)
    requires c == PcmConfigMm || c == ActiveConfig
    ensures OutGetBufferSize(c.rate as u32) == PeriodSize * FrameSize
    ensures OutGetLatency(c) == 174
  {
  }

  // ---------------------------------------------------------------------------
  // The pacing loop of out_write
  // ---------------------------------------------------------------------------

  /**
   * The kernel's answer to one pass of the pacing loop: either the timestamp
   * query failed, or it gave the frames available for writing, after which the
   * buffer-size query gave the ring buffer's capacity.
   */
  datatype Stamp = StampFailed | Stamp(avail: u32, bufferSize: u32)

  /** A call the stream makes into the PCM library or usleep. */
  datatype HwCall =
    | PcmOpen
    | PcmClose
    | GetHtimestamp
    | GetBufferSize
    | Sleep(us: int)
    | MmapWrite(bytes: int)

  /**
   * Frames still queued in the kernel: capacity minus available, computed in
   * `unsigned int` and stored into the `int` kernel_frames.
   */
  function ResidentFrames(avail: u32, bufferSize: u32): (frames: int)
    ensures -TwoTo31 <= frames < TwoTo31
    ensures (frames - (bufferSize as int - avail as int)) % TwoTo32 == 0
    ensures avail <= bufferSize && bufferSize as int < TwoTo31 ==>
              frames == bufferSize as int - avail as int
  {
    var bits := (bufferSize as int - avail as int) % TwoTo32;
    if bits < TwoTo31 then bits else bits - TwoTo32
  }

  function ResidentOf(s: Stamp): int
    requires s.Stamp?
  {
    ResidentFrames(s.avail, s.bufferSize)
  }

  /** The largest excess whose sleep time fits the 32-bit `unsigned long`. */
  const MaxExactExcess: int := 189408057

  /**
   * The sleep, in microseconds, for `excess` frames above the threshold: the
   * 64-bit quotient excess * 1000000 / 44100, cast to the 32-bit `unsigned
   * long` of the target, and raised to at least MinWriteSleepUs.
   */
  function SleepUs(excess: int): (us: int)
    requires 0 < excess < TwoTo31
    ensures MinWriteSleepUs <= us < TwoTo32
    ensures excess <= MaxExactExcess ==>
              us == Max(MinWriteSleepUs, excess * 1000000 / DefaultOutSamplingRate)
  {
    var time := (excess * 1000000 / DefaultOutSamplingRate) % TwoTo32;
    if time < MinWriteSleepUs then MinWriteSleepUs else time
  }

  /** Up to MaxExactExcess a larger excess never sleeps less. */
  lemma SleepUsMonotonic(e1: int, e2: int)
    requires 0 < e1 <= e2 <= MaxExactExcess
    ensures SleepUs(e1) <= SleepUs(e2)
  {
    assert e1 * 1000000 <= e2 * 1000000;
  }

  /** One frame past MaxExactExcess the cast wraps and the sleep drops to the minimum. */
  lemma SleepUsWrapsPastExactRange()
    ensures MaxExactExcess * 1000000 / DefaultOutSamplingRate < TwoTo32
    ensures (MaxExactExcess + 1) * 1000000 / DefaultOutSamplingRate >= TwoTo32
    ensures SleepUs(MaxExactExcess + 1) == MinWriteSleepUs
  {
  }

  /** Whether a pass of the pacing loop with this answer leaves the loop. */
  predicate Exits(s: Stamp, threshold: int)
  {
    s.StampFailed? || ResidentOf(s) <= threshold
  }

  /** The index of the first answer that leaves the loop, or |stamps| if none does. */
  function FirstExit(stamps: seq<Stamp>, threshold: int): (k: nat)
    ensures k <= |stamps|
    ensures forall i :: 0 <= i < k ==> !Exits(stamps[i], threshold)
    ensures k < |stamps| ==> Exits(stamps[k], threshold)
  {
    if stamps == [] || Exits(stamps[0], threshold) then 0
    else 1 + FirstExit(stamps[1..], threshold)
  }

  /** The calls the pacing loop makes, and whether it left the loop before the answers ran out. */
  datatype Pacing = Pacing(calls: seq<HwCall>, exited: bool)

  /**
   * The do-while pacing loop of out_write, driven by the kernel's successive
   * answers. It leaves when a timestamp query fails or when the resident frames
   * are at most the threshold; otherwise it sleeps and queries again.
   */
  function Pace(stamps: seq<Stamp>, threshold: int): (p: Pacing)
    requires threshold >= 0
    ensures |p.calls| <= 3 * |stamps|
    decreases |stamps|
  {
    if stamps == [] then Pacing([], false)
    else match stamps[0]
      case StampFailed => Pacing([GetHtimestamp], true)
      case Stamp(avail, size) =>
        var frames := ResidentFrames(avail, size);
        if frames <= threshold then Pacing([GetHtimestamp, GetBufferSize], true)
        else
          var rest := Pace(stamps[1..], threshold);
          Pacing([GetHtimestamp, GetBufferSize, Sleep(SleepUs(frames - threshold))] + rest.calls, rest.exited)
  }

  /**
   * The pacing loop leaves exactly when some answer is a failed query or shows
   * at most `threshold` resident frames.
   */
  lemma {:induction false} PaceExits(stamps: seq<Stamp>, threshold: int)
    requires threshold >= 0
    ensures Pace(stamps, threshold).exited <==> exists i :: 0 <= i < |stamps| && Exits(stamps[i], threshold)
    ensures Pace(stamps, threshold).exited <==> FirstExit(stamps, threshold) < |stamps|
  {
    if stamps != [] && !Exits(stamps[0], threshold) {
      PaceExits(stamps[1..], threshold);
      PaceStep(stamps, threshold);
      assert forall i :: 1 <= i < |stamps| ==> stamps[i] == stamps[1..][i - 1];
    }
  }

  /**
   * The loop leaves at the first answer that ends it and reads no answer
   * past it: dropping every later answer changes neither its calls nor how
   * it ends.
   */
  lemma {:induction false} PaceStopsAtFirstExit(stamps: seq<Stamp>, threshold: int)
    requires threshold >= 0 && FirstExit(stamps, threshold) < |stamps|
    ensures Pace(stamps, threshold) == Pace(stamps[..FirstExit(stamps, threshold) + 1], threshold)
  {
    var k := FirstExit(stamps, threshold);
    var prefix := stamps[..k + 1];
    if k > 0 {
      PaceStopsAtFirstExit(stamps[1..], threshold);
      assert prefix[1..] == stamps[1..][..k];
      PaceStep(stamps, threshold);
      PaceStep(prefix, threshold);
    }
  }

  /** One pass of the pacing loop that sleeps and goes round again. */
  lemma PaceStep(stamps: seq<Stamp>, threshold: int)
    requires threshold >= 0 && stamps != [] && !Exits(stamps[0], threshold)
    ensures var rest := Pace(stamps[1..], threshold);
      Pace(stamps, threshold)
      == Pacing([GetHtimestamp, GetBufferSize, Sleep(SleepUs(ResidentOf(stamps[0]) - threshold))] + rest.calls,
                rest.exited)
  {
  }

  lemma AppendAssoc(a: seq<HwCall>, b: seq<HwCall>, c: seq<HwCall>)
    ensures a + (b + c) == (a + b) + c
  {
  }

  /** The lengths of the sleeps in a call log, in order. */
  function Sleeps(calls: seq<HwCall>): (us: seq<int>)
    ensures |us| <= |calls|
  {
    if calls == [] then []
    else (if calls[0].Sleep? then [calls[0].us] else []) + Sleeps(calls[1..])
  }

  /** The byte counts of the mapped writes in a call log, in order. */
  function Transfers(calls: seq<HwCall>): (bytes: seq<int>)
    ensures |bytes| <= |calls|
  {
    if calls == [] then []
    else (if calls[0].MmapWrite? then [calls[0].bytes] else []) + Transfers(calls[1..])
  }

  lemma {:induction false} SleepsAppend(a: seq<HwCall>, b: seq<HwCall>)
    ensures Sleeps(a + b) == Sleeps(a) + Sleeps(b)
  {
    if a == [] {
      assert a + b == b;
    } else {
      assert (a + b)[0] == a[0];
      assert (a + b)[1..] == a[1..] + b;
      SleepsAppend(a[1..], b);
    }
  }

  lemma {:induction false} TransfersAppend(a: seq<HwCall>, b: seq<HwCall>)
    ensures Transfers(a + b) == Transfers(a) + Transfers(b)
  {
    if a == [] {
      assert a + b == b;
    } else {
      assert (a + b)[0] == a[0];
      assert (a + b)[1..] == a[1..] + b;
      TransfersAppend(a[1..], b);
    }
  }

  /** The sleeps owed to the answers before the first one that leaves the loop, in order. */
  function OwedSleeps(stamps: seq<Stamp>, threshold: int): seq<int>
    requires threshold >= 0
    decreases |stamps|
  {
    if stamps == [] || Exits(stamps[0], threshold) then []
    else [SleepUs(ResidentOf(stamps[0]) - threshold)] + OwedSleeps(stamps[1..], threshold)
  }

  /** The loop's sleeps are exactly the owed ones. */
  lemma {:induction false} PaceSleeps(stamps: seq<Stamp>, threshold: int)
    requires threshold >= 0
    ensures Sleeps(Pace(stamps, threshold).calls) == OwedSleeps(stamps, threshold)
  {
    if stamps == [] {
    } else if Exits(stamps[0], threshold) {
      var p := Pace(stamps, threshold);
      assert p.calls == [GetHtimestamp] || p.calls == [GetHtimestamp, GetBufferSize];
    } else {
      PaceSleeps(stamps[1..], threshold);
      SleepsOfPass(stamps, threshold);
    }
  }

  /**
   * One sleep is owed for every answer before the first that leaves the loop,
   * and it is the one the formula gives for that answer's excess.
   */
  lemma {:induction false} OwedSleepsAt(stamps: seq<Stamp>, threshold: int)
    requires threshold >= 0
    ensures var owed := OwedSleeps(stamps, threshold);
      && |owed| == FirstExit(stamps, threshold)
      && forall i :: 0 <= i < |owed| ==>
           !Exits(stamps[i], threshold) && owed[i] == SleepUs(ResidentOf(stamps[i]) - threshold)
  {
    if stamps != [] && !Exits(stamps[0], threshold) {
      var rest := OwedSleeps(stamps[1..], threshold);
      OwedSleepsAt(stamps[1..], threshold);
      forall i | 1 <= i < |rest| + 1
        ensures !Exits(stamps[i], threshold) && ([SleepUs(ResidentOf(stamps[0]) - threshold)] + rest)[i] == SleepUs(ResidentOf(stamps[i]) - threshold)
      {
        assert stamps[1..][i - 1] == stamps[i];
      }
    }
  }

  /** The sleeps of a pass that sleeps: its own, then those of the passes after it. */
  lemma SleepsOfPass(stamps: seq<Stamp>, threshold: int)
    requires threshold >= 0 && stamps != [] && !Exits(stamps[0], threshold)
    ensures Sleeps(Pace(stamps, threshold).calls)
            == [SleepUs(ResidentOf(stamps[0]) - threshold)] + Sleeps(Pace(stamps[1..], threshold).calls)
  {
    var us := SleepUs(ResidentOf(stamps[0]) - threshold);
    var head := [GetHtimestamp, GetBufferSize, Sleep(us)];
    PaceStep(stamps, threshold);
    SleepsAppend(head, Pace(stamps[1..], threshold).calls);
    assert Sleeps(head[2..]) == [us];
    assert Sleeps(head[1..]) == Sleeps(head[2..]);
  }

  /** The pacing loop never writes. */
  lemma {:induction false} PaceNeverTransfers(stamps: seq<Stamp>, threshold: int)
    requires threshold >= 0
    ensures Transfers(Pace(stamps, threshold).calls) == []
  {
    var p := Pace(stamps, threshold);
    if stamps == [] {
    } else if Exits(stamps[0], threshold) {
      assert p.calls == [GetHtimestamp] || p.calls == [GetHtimestamp, GetBufferSize];
      assert Transfers(p.calls) == [];
    } else {
      var frames := ResidentOf(stamps[0]);
      PaceStep(stamps, threshold);
      var head := [GetHtimestamp, GetBufferSize, Sleep(SleepUs(frames - threshold))];
      PaceNeverTransfers(stamps[1..], threshold);
      assert Transfers(head[2..]) == [] && Transfers(head[1..]) == [];
      TransfersAppend(head, Pace(stamps[1..], threshold).calls);
    }
  }

  /**
   * When the kernel never reports more than `threshold` frames of capacity,
   * the loop leaves on its first pass without sleeping.
   */
  lemma PaceCapacityWithinThreshold(stamps: seq<Stamp>, threshold: int)
    requires threshold >= 0 && stamps != []
    requires forall i :: 0 <= i < |stamps| && stamps[i].Stamp? ==>
               stamps[i].avail <= stamps[i].bufferSize && stamps[i].bufferSize as int <= threshold
    ensures Pace(stamps, threshold).exited
    ensures Sleeps(Pace(stamps, threshold).calls) == []
  {
    assert Exits(stamps[0], threshold);
    PaceSleeps(stamps, threshold);
  }

  /** When the first timestamp query fails, the loop makes no other call. */
  lemma PaceQueryFailure(stamps: seq<Stamp>, threshold: int)
    requires threshold >= 0 && stamps != [] && stamps[0].StampFailed?
    ensures Pace(stamps, threshold) == Pacing([GetHtimestamp], true)
  {
  }

  // ---------------------------------------------------------------------------
  // out_write as a whole
  // ---------------------------------------------------------------------------

  /**
   * How a write ends: it returns a value, or it is still in the pacing loop
   * when the kernel's recorded answers run out.
   */
  datatype WriteOutcome = Returned(ret: int) | StillPacing

  /** The calls a write makes, how it ends, and the standby flag it leaves. */
  datatype WriteEffect = WriteEffect(calls: seq<HwCall>, outcome: WriteOutcome, standby: bool)

  /**
   * out_write on a stream whose standby flag is `standby`: activate if in
   * standby (failing with -ENOMEM when the PCM is not ready), pace, then make
   * one mapped write of `bytes` and return its result `written`.
   */
  function OutWrite(standby: bool, pcmReady: bool, bytes: int, stamps: seq<Stamp>, written: int): (e: WriteEffect)
    ensures e.standby <==> standby && !pcmReady
    ensures standby && !pcmReady ==>
              && e.outcome == Returned(-ENOMEM)
              && GetHtimestamp !in e.calls && Sleeps(e.calls) == [] && Transfers(e.calls) == []
  {
    if standby && !pcmReady then
      WriteEffect([PcmOpen, PcmClose], Returned(-ENOMEM), true)
    else
      var activation := if standby then [PcmOpen] else [];
      var p := Pace(stamps, WriteThreshold);
      if p.exited then WriteEffect(activation + p.calls + [MmapWrite(bytes)], Returned(written), false)
      else WriteEffect(activation + p.calls, StillPacing, false)
  }

  /**
   * A write that gets past activation and out of the pacing loop makes exactly
   * one mapped write, of all the bytes, as its last call, and returns its
   * result unchanged; any other write makes none.
   */
  lemma WriteTransfersOnce(standby: bool, pcmReady: bool, bytes: int, stamps: seq<Stamp>, written: int)
    ensures var e := OutWrite(standby, pcmReady, bytes, stamps, written);
      var transferred := e.outcome.Returned? && !(standby && !pcmReady);
      && Transfers(e.calls) == (if transferred then [bytes] else [])
      && (transferred ==> e.outcome.ret == written && e.calls[|e.calls| - 1] == MmapWrite(bytes))
  {
    if !(standby && !pcmReady) {
      var activation := if standby then [PcmOpen] else [];
      var p := Pace(stamps, WriteThreshold);
      PaceNeverTransfers(stamps, WriteThreshold);
      TransfersAppend(activation, p.calls);
      TransfersAppend(activation + p.calls, [MmapWrite(bytes)]);
    }
  }

  /**
   * A write that gets through activation returns the mapped write's result
   * exactly when some kernel answer lets it out of the pacing loop: a failed
   * timestamp query, or at most WriteThreshold frames queued.
   */
  lemma WriteReturnsWhenPaced(standby: bool, pcmReady: bool, bytes: int, stamps: seq<Stamp>, written: int)
    requires !(standby && !pcmReady)
    ensures OutWrite(standby, pcmReady, bytes, stamps, written).outcome == Returned(written)
      <==> exists i :: 0 <= i < |stamps| && Exits(stamps[i], WriteThreshold)
    ensures OutWrite(standby, pcmReady, bytes, stamps, written).outcome.StillPacing?
      <==> forall i :: 0 <= i < |stamps| ==> !Exits(stamps[i], WriteThreshold)
  {
    PaceExits(stamps, WriteThreshold);
  }

  /**
   * The sleeps of a write are those of its pacing loop: one per answer before
   * the first that leaves the loop, each as long as the formula says.
   */
  lemma WriteSleeps(standby: bool, pcmReady: bool, bytes: int, stamps: seq<Stamp>, written: int)
    requires !(standby && !pcmReady)
    ensures Sleeps(OutWrite(standby, pcmReady, bytes, stamps, written).calls) == OwedSleeps(stamps, WriteThreshold)
  {
    var activation := if standby then [PcmOpen] else [];
    var p := Pace(stamps, WriteThreshold);
    PaceSleeps(stamps, WriteThreshold);
    SleepsAppend(activation, p.calls);
    SleepsAppend(activation + p.calls, [MmapWrite(bytes)]);
  }

  /** A stream left in standby by a failed activation tries to activate again on the next write. */
  lemma FailedActivationRetried(b1: int, s1: seq<Stamp>, w1: int, ready: bool, b2: int, s2: seq<Stamp>, w2: int)
    ensures var e1 := OutWrite(true, false, b1, s1, w1);
      var e2 := OutWrite(e1.standby, ready, b2, s2, w2);
      e1.outcome == Returned(-ENOMEM) && e2.calls != [] && e2.calls[0] == PcmOpen
  {
  }

  // ---------------------------------------------------------------------------
  // The stream record
  // ---------------------------------------------------------------------------

  /** `struct mini210_stream_out`. */
  class StreamOut {
    var config: PcmConfig
    var standby: bool
    /** Whether the stream's mutex is held. */
    var locked: bool
    /** Whether `pcm` is an open handle that reported ready. */
    var pcmReady: bool
    var writeThreshold: int
    /** Every call the stream has made into the PCM library and usleep, in order. */
    ghost var calls: seq<HwCall>

    /**
     * A stream in standby has no open PCM; an active stream has a ready PCM,
     * the activated configuration and the threshold.
     */
    ghost predicate Valid()
      reads this
    {
      && (config == PcmConfigMm || config == ActiveConfig)
      && (standby ==> !pcmReady)
      && (!standby ==> pcmReady && config == ActiveConfig && writeThreshold == WriteThreshold)
    }

    /** The zero-filled record, with the default configuration and in standby. */
    constructor ()
      ensures Valid() && standby && !locked && !pcmReady
      ensures config == PcmConfigMm && writeThreshold == 0 && calls == []
    {
      config := PcmConfigMm;
      standby := true;
      locked := false;
      pcmReady := false;
      writeThreshold := 0;
      calls := [];
    }

    /**
     * start_output_stream: set the thresholds, open the PCM and, when it is
     * not ready, close it again and fail with -ENOMEM. On success the PCM is
     * open while the stream is still marked standby, until out_write clears
     * the flag.
     */
    method StartOutputStream(ready: bool) returns (ret: int)
      requires Valid() && standby
      modifies this
      ensures !ready ==> Valid()
      ensures ret == (if ready then 0 else -ENOMEM)
      ensures writeThreshold == WriteThreshold && config == ActiveConfig && pcmReady == ready
      ensures calls == old(calls) + (if ready then [PcmOpen] else [PcmOpen, PcmClose])
      ensures standby == old(standby) && locked == old(locked)
    {
      writeThreshold := PlaybackPeriodCount * PeriodSize;
      config := config.(startThreshold := PeriodSize * 2);
      config := config.(availMin := PeriodSize);
      calls := calls + [PcmOpen];
      pcmReady := ready;
      if !pcmReady {
        calls := calls + [PcmClose];
        return -ENOMEM;
      }
      return 0;
    }

    /**
     * out_write: under the stream's lock, activate a stream in standby, pace
     * against the kernel's answers `stamps`, then write `bytes` once and
     * return the write's result `written`. The lock is released on both
     * return paths.
     */
    method Write(bytes: int, ready: bool, stamps: seq<Stamp>, written: int) returns (r: WriteOutcome)
      requires Valid() && !locked
      modifies this
      ensures Valid()
      ensures var e := OutWrite(old(standby), ready, bytes, stamps, written);
        r == e.outcome && standby == e.standby && calls == old(calls) + e.calls
      ensures locked <==> r.StillPacing?
      ensures old(standby) ==> writeThreshold == WriteThreshold && config == ActiveConfig && pcmReady == ready
      ensures !old(standby) ==> config == old(config) && pcmReady == old(pcmReady)
    {
      locked := true;
      if standby {
        var ret := StartOutputStream(ready);
        if ret != 0 {
          locked := false;
          return Returned(ret);
        }
        standby := false;
      }
      ghost var activation := if old(standby) then [PcmOpen] else [];
      assert calls == old(calls) + activation;
      var exited := WaitForRoom(stamps);
      ghost var p := Pace(stamps, WriteThreshold);
      AppendAssoc(old(calls), activation, p.calls);
      if !exited {
        return StillPacing;
      }
      calls := calls + [MmapWrite(bytes)];
      AppendAssoc(old(calls), activation + p.calls, [MmapWrite(bytes)]);
      locked := false;
      r := Returned(written);
    }

    /**
     * The do-while loop of out_write: query the kernel and, while more than
     * writeThreshold frames are resident, sleep and query again. It reports
     * whether it left the loop before the kernel's answers ran out.
     */
    method WaitForRoom(stamps: seq<Stamp>) returns (exited: bool)
      requires writeThreshold == WriteThreshold
      modifies this`calls
      ensures exited == Pace(stamps, WriteThreshold).exited
      ensures calls == old(calls) + Pace(stamps, WriteThreshold).calls
    {
      ghost var p := Pace(stamps, WriteThreshold);
      ghost var paced: seq<HwCall> := [];
      var i := 0;
      var kernelFrames: int;
      while true
        invariant 0 <= i <= |stamps|
        invariant calls == old(calls) + paced
        invariant p == Pacing(paced + Pace(stamps[i..], WriteThreshold).calls, Pace(stamps[i..], WriteThreshold).exited)
        decreases |stamps| - i
      {
        ghost var pass := Pace(stamps[i..], WriteThreshold);
        ghost var paced0 := paced;
        if i == |stamps| {
          assert stamps[i..] == [];
          assert paced + [] == paced;
          return false;
        }
        AppendAssoc(old(calls), paced, [GetHtimestamp]);
        calls, paced := calls + [GetHtimestamp], paced + [GetHtimestamp];
        if stamps[i].StampFailed? {
          assert pass.calls == [GetHtimestamp];
          break;
        }
        AppendAssoc(old(calls), paced, [GetBufferSize]);
        calls, paced := calls + [GetBufferSize], paced + [GetBufferSize];
        kernelFrames := ResidentFrames(stamps[i].avail, stamps[i].bufferSize);
        if kernelFrames > writeThreshold {
          var time := SleepUs(kernelFrames - writeThreshold);
          AppendAssoc(old(calls), paced, [Sleep(time)]);
          calls, paced := calls + [Sleep(time)], paced + [Sleep(time)];
        }
        if kernelFrames <= writeThreshold {
          assert pass.calls == [GetHtimestamp, GetBufferSize];
          assert paced == paced0 + [GetHtimestamp, GetBufferSize];
          break;
        }
        PaceStep(stamps[i..], WriteThreshold);
        assert stamps[i..][1..] == stamps[i + 1..];
        ghost var step := [GetHtimestamp, GetBufferSize, Sleep(SleepUs(kernelFrames - writeThreshold))];
        ghost var rest := Pace(stamps[i + 1..], WriteThreshold);
        assert pass.calls == step + rest.calls;
        assert paced == paced0 + step;
        AppendAssoc(paced0, step, rest.calls);
        i := i + 1;
      }
      assert p.exited && p.calls == paced;
      exited := true;
    }

    /** out_standby: does nothing and returns 0, so an active stream stays active. */
    method Standby() returns (ret: int)
      ensures ret == 0
    {
      ret := 0;
    }
  }

  /**
   * adev_open_output_stream: allocate a stream (failing with -ENOMEM), give it
   * the default configuration in standby, and overwrite the caller's
   * configuration with what the stream supports.
   */
  method OpenOutputStream(config: AudioConfig, allocOk: bool) returns (ret: int, updated: AudioConfig, out: StreamOut?)
    ensures allocOk ==> ret == 0 && updated == StreamAudioConfig
    ensures allocOk ==> out != null && fresh(out) && out.Valid()
    ensures allocOk ==> out.standby && !out.locked && out.config == PcmConfigMm && out.calls == []
    ensures !allocOk ==> ret == -ENOMEM && out == null && updated == config
  {
    if !allocOk {
      return -ENOMEM, config, null;
    }
    out := new StreamOut();
    updated := config.(format := AudioFormatPcm16Bit);
    updated := updated.(channelMask := AudioChannelOutStereo);
    updated := updated.(sampleRate := DefaultOutSamplingRate);
    ret := 0;
  }
}
