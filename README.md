# tiny210 audio and sensor HALs, modelled in Dafny

This project models the core of the hardware abstraction layers of the
FriendlyARM Tiny210 (Samsung S5PV210) board for Android.

The audio HAL opens one playback stream. The stream stays in standby until
its first write. That write opens a memory-mapped PCM with a fixed
configuration: 2 channels, 44100 Hz, 4 periods of 1920 frames, S16_LE.
Every write then paces itself against the kernel's ring buffer, sleeping
while more than 7680 frames are queued. It then hands the whole buffer to
one mapped write.

The sensors HAL exposes a single MMA7660 accelerometer through a table of
devices with optional hooks:
- opening the poll device initialises every device and rolls back on failure;
- activate and setDelay dispatch by handle;
- poll gathers events from the devices that have data.

The accelerometer driver reads "x, y, z" from a sysfs node and turns it
into one event, with each axis halved.

Files:
- `audio_hw.dfy` (module `AudioHw`): the stream configuration, the size and
  latency getters, the pacing loop as a function of the kernel's answers,
  and the stream record as a class. Its methods update the record in place
  and log every call into the PCM library.
- `sensors_hw.dfy` (module `SensorsHw`): the device table as a datatype of
  hooks, the init/rollback, poll and open routines as methods that return
  the log of hook calls, and the board's own table.
- `acceler.dfy` (module `Acceler`): the accelerometer driver, as a class
  holding the descriptor, plus the pure pieces of its poll.
- `sensor_types.dfy`, `errno.dfy`, `wrappers.dfy`: constants and records of
  the Android sensors header, the errno values used, and `Option`.

Whatever the hardware answers is a parameter:
- whether the PCM is ready;
- the successive answers to the timestamp and buffer-size queries;
- the result of the mapped write;
- what `open` and `read` return on the sysfs node;
- what `sscanf` parses;
- the time of day;
- whether an allocation succeeds.

## Model

| member | source | states |
|---|---|---|
| `AudioHw.OutGetBufferSize` | libaudio/audio_hw.c:129-142 | the size is a whole number of 16-frame blocks, in bytes, at least the frames of one period at the stream's rate and less than 16 frames above it |
| `AudioHw.RoundUpBounds` | libaudio/audio_hw.c:139 | the "multiple 16" rounding gives the least multiple of 16 that is not below the input |
| `AudioHw.OutGetLatency` | libaudio/audio_hw.c:193-199 | the latency is the floor of the buffered milliseconds (period size × count × 1000, in 32-bit unsigned) divided by the rate |
| `AudioHw.StreamSizeAndLatency` | libaudio/audio_hw.c:129-199 | with either configuration a stream can hold, the buffer size is 1920 frames (7680 bytes) and the latency is 174 ms |
| `AudioHw.ResidentFrames` | libaudio/audio_hw.c:231-235 | queued frames are capacity minus available modulo 2^32, read as a 32-bit int; they are the plain difference when the answers are sane |
| `AudioHw.SleepUs` | libaudio/audio_hw.c:236-243 | a sleep is at least 5000 µs; up to 189408057 excess frames it is exactly max(5000, ⌊excess·10^6/44100⌋) |
| `AudioHw.SleepUsMonotonic` | libaudio/audio_hw.c:237-242 | within that range, more excess frames never give a shorter sleep |
| `AudioHw.SleepUsWrapsPastExactRange` | libaudio/audio_hw.c:237-239 | one frame past that range the 32-bit cast wraps and the sleep falls back to 5000 µs |
| `AudioHw.FirstExit` | libaudio/audio_hw.c:228-245 | the first kernel answer that ends the loop (a failed query or at most the threshold queued), with every earlier answer not ending it |
| `AudioHw.Pace` | libaudio/audio_hw.c:228-245 | the calls the do-while pacing loop makes for a list of kernel answers, and whether it ended before they ran out; each answer costs at most three calls (timestamp query, buffer-size query, sleep). `PaceExits`, `PaceStopsAtFirstExit`, `PaceSleeps`, `OwedSleepsAt` and `PaceNeverTransfers` state its properties, and `StreamOut.WaitForRoom` is proved to make exactly these calls |
| `AudioHw.PaceExits` | libaudio/audio_hw.c:228-245 | the loop ends exactly when some answer is a failed query or shows at most the threshold queued |
| `AudioHw.PaceStopsAtFirstExit` | libaudio/audio_hw.c:228-245 | the loop reads no answer past the first one that ends it: its calls and its ending are those of the answers up to that one |
| `AudioHw.PaceSleeps` | libaudio/audio_hw.c:236-245 | the loop's sleeps, in order, are the sleeps owed to the answers before the one that ends it |
| `AudioHw.OwedSleepsAt` | libaudio/audio_hw.c:236-243 | one sleep is owed per answer before the loop ends, each the formula's value for that answer's excess over the threshold |
| `AudioHw.PaceNeverTransfers` | libaudio/audio_hw.c:228-245 | the pacing loop makes no mapped write |
| `AudioHw.PaceCapacityWithinThreshold` | libaudio/audio_hw.c:228-245 | if every answer reports at most as many frames available as its capacity, and a capacity of at most the threshold, the loop ends on its first pass and never sleeps |
| `AudioHw.PaceQueryFailure` | libaudio/audio_hw.c:231-233 | a failed first timestamp query ends the loop with no other call |
| `AudioHw.OutWrite` | libaudio/audio_hw.c:209-251 | a write leaves standby set exactly when it began in standby and activation failed; such a write returns -ENOMEM and makes no query, sleep or mapped write |
| `AudioHw.WriteTransfersOnce` | libaudio/audio_hw.c:247-250 | a write that gets through activation and pacing makes exactly one mapped write, of all the bytes, as its last call, and returns its result unchanged; any other write makes none |
| `AudioHw.WriteReturnsWhenPaced` | libaudio/audio_hw.c:228-250 | a write past activation returns the mapped write's result exactly when some kernel answer is a failed query or shows at most 7680 frames queued, and is still pacing exactly when none is |
| `AudioHw.WriteSleeps` | libaudio/audio_hw.c:228-245 | a write's sleeps are exactly those of its pacing loop |
| `AudioHw.FailedActivationRetried` | libaudio/audio_hw.c:219-226 | after a failed activation, the next write starts by opening the PCM again |
| `AudioHw.StreamOut.constructor` | libaudio/audio_hw.c:409-431 | a new stream record is in standby, unlocked, with the default configuration and no calls made |
| `AudioHw.StreamOut.StartOutputStream` | libaudio/audio_hw.c:94-113 | activation sets the write threshold to 7680, the start threshold to 3840 and avail_min to 1920, opens the PCM, and closes it again and returns -ENOMEM when it is not ready |
| `AudioHw.StreamOut.Write` | libaudio/audio_hw.c:209-251 | the stream's new state, result and calls are those of `OutWrite`; a stream that was in standby holds the activated configuration and threshold afterwards, even when activation failed; the stream stays valid; the lock is free on every return |
| `AudioHw.StreamOut.WaitForRoom` | libaudio/audio_hw.c:228-245 | the do-while loop makes exactly the calls of `Pace` and reports whether it ended |
| `AudioHw.StreamOut.Standby` | libaudio/audio_hw.c:165-170 | standby returns 0 and changes nothing |
| `AudioHw.OpenOutputStream` | libaudio/audio_hw.c:394-440 | a new stream is in standby with the default configuration, and the caller's configuration becomes 16-bit stereo at 44100 Hz; a failed allocation returns -ENOMEM |
| `SensorsHw.FirstFailedInit` | libsensors/sensors_hw.c:49-53 | the first device whose `init` fails, with every earlier `init` having returned 0 |
| `SensorsHw.FirstFailedInitIs` | libsensors/sensors_hw.c:49-53 | a failing device after only successful ones is the first failing device |
| `SensorsHw.RollbackCalls` | libsensors/sensors_hw.c:57-62 | the rollback after device k fails: `exit` on devices k−1 down to 0 where the hook is present, so at most k calls, all of them exits; `RollbackOrder` states the order and which devices are exited |
| `SensorsHw.InitOutcome` | libsensors/sensors_hw.c:44-63 | what sensors_init returns and calls: 0 exactly when every `init` returns 0, and then only `init` calls; otherwise the first failing code, after the `init` calls up to that device and the rollback. `FirstFailedInit`, `InitCalls` and `RollbackOrder` state its parts, and `SensorsInit` is proved to return exactly this |
| `SensorsHw.InitCalls` | libsensors/sensors_hw.c:49-50 | `init` is called on the devices in index order |
| `SensorsHw.RollbackOrder` | libsensors/sensors_hw.c:57-62 | the rollback exits only devices before the failed one, in strictly decreasing order, and exactly those that have an `exit` hook |
| `SensorsHw.SensorsInit` | libsensors/sensors_hw.c:44-63 | returns 0 exactly when every `init` returns 0; otherwise returns the first failing code after that `init` call and the rollback |
| `SensorsHw.SensorsActivate` | libsensors/sensors_hw.c:65-74 | returns 0 with no call when the device at handle − 1 has no `activate` hook, and otherwise calls it once and returns its result |
| `SensorsHw.SensorsSetDelay` | libsensors/sensors_hw.c:76-85 | the same, for the `setDelay` hook |
| `SensorsHw.PollFrom` | libsensors/sensors_hw.c:94-103 | the poll loop from device i with n events gathered: at most two calls per remaining device (have_data, then poll). `PollCallsShape` and `PollBound` state its properties, and `SensorsPoll` is proved to return exactly this |
| `SensorsHw.PollCallsShape` | libsensors/sensors_hw.c:95-101 | every poll goes to a device that reported data, asks for a positive number of events within what is still wanted, and gets the caller's buffer with no offset |
| `SensorsHw.PollBound` | libsensors/sensors_hw.c:94-103 | with devices that report at most what they are asked for, the total never falls and never exceeds `count` |
| `SensorsHw.SensorsPoll` | libsensors/sensors_hw.c:87-104 | the loop makes the calls and returns the total of the poll specification; with count ≤ 0 it returns 0 and calls nothing; with honest devices 0 ≤ n ≤ count |
| `SensorsHw.SdevOpen` | libsensors/sensors_hw.c:112-149 | a wrong id gives -EINVAL and allocates nothing; a failed allocation gives -ENOMEM; otherwise it returns the result of sensors_init, handing the device out on 0 and freeing it on failure |
| `SensorsHw.GetSensorsList` | libsensors/sensors_hw.c:151-156 | the list has one sensor, an accelerometer with handle SENSORS_HANDLE_BASE + 1 |
| `SensorsHw.SensorDevices` | libsensors/sensors_hw.c:36-42 | the board's table: one device with no `exit`, `activate` or `setDelay` hook, whose `have_data` is 1, whose `init` returns 0 exactly when the node opens, and whose `poll` returns 1 exactly when the read succeeds; used by `ListedHandlesDispatch`, `BoardInit` and `BoardPoll` |
| `SensorsHw.ListedHandlesDispatch` | libsensors/sensors_hw.c:22-42 | every listed handle is a valid table lookup, and activating or re-timing it on the board's table calls nothing and returns 0 |
| `SensorsHw.BoardInit` | libsensors/sensors_hw.c:36-42 | on the board's table, init calls the accelerometer's `init` once and returns its result, with nothing to roll back |
| `SensorsHw.BoardPoll` | libsensors/sensors_hw.c:36-42 | on the board's table, a poll for at least one event returns 1 exactly when the read succeeds, and the accelerometer reports honestly |
| `Acceler.TimevalToNs` | libsensors/acceler.c:32-38 | the timestamp fits in 64 bits and splits back into the seconds and the microseconds × 1000 |
| `Acceler.TimevalToNsOrdered` | libsensors/acceler.c:34-38 | a later timeval gives a later timestamp, and only a later one does |
| `Acceler.Half` | libsensors/acceler.c:81-83 | axis halving is C's division, truncated toward zero |
| `Acceler.HalfOdd` | libsensors/acceler.c:81-83 | halving commutes with negation |
| `Acceler.InitResult` | libsensors/acceler.c:40-51 | init returns 0 exactly when `open` succeeds, and the negative value `open` returned otherwise |
| `Acceler.Accelerometer.Init` | libsensors/acceler.c:40-51 | init keeps the descriptor and returns that result |
| `Acceler.PollCount` | libsensors/acceler.c:69-94 | a poll returns 1 exactly when `read` returned more than 0 bytes, and 0 otherwise |
| `Acceler.HaveData` | libsensors/acceler.c:97-100 | the accelerometer always has data |
| `Acceler.AccelerEvent` | libsensors/acceler.c:81-89 | the event is an accelerometer event of handle SENSORS_HANDLE_BASE + 1, medium accuracy, version sizeof(sensors_event_t), with each axis halved toward zero |
| `Acceler.StoreTerminator` | libsensors/acceler.c:77 | the terminator store is defined exactly when its index is inside the buffer, and then only that byte changes, to 0 |
| `Acceler.FullReadOverrunsBuffer` | libsensors/acceler.c:60-77 | as written, a read that fills the buffer makes the terminator store land one past its end |
| `Acceler.TerminatorFits` | libsensors/acceler.c:60-77 | reading one byte less than the buffer holds, every successful read leaves room for the terminator and keeps the bytes read |
| `Acceler.Accelerometer.Poll` | libsensors/acceler.c:53-95 | the poll with its read corrected to DATA_LEN − 1 bytes: the terminator store is always in bounds; a failed read leaves the events untouched and returns 0; a successful one returns 1 and writes only `data[0]`, with the accelerometer event |
| `Acceler.Accelerometer.PollAsWritten` | libsensors/acceler.c:53-95 | the poll as written, reading up to sizeof(buf) bytes: it reaches the out-of-bounds terminator store exactly when the read returns DATA_LEN; otherwise it behaves as the corrected poll |
| `Acceler.Accelerometer.FillEvent` | libsensors/acceler.c:81-89 | the stores into `*data` change only `data[0]`, to the accelerometer event |
| `Acceler.Accelerometer.constructor` | libsensors/acceler.c:30 | the descriptor starts at 0, as every C static does |

## Left out

- `SleepUs`: the sleep is exactly max(5000, ⌊excess·10^6/44100⌋) only up to 189408057 excess frames. On the 32-bit target, `unsigned long` wraps above that. The model keeps the wrap and states the exact formula only in that range.
- The pacing loop has no bound of its own: it spins while the kernel keeps more than the threshold queued. The model drives it with a finite list of kernel answers. A write still in the loop when that list runs out is reported as `StillPacing`, with the lock held and no mapped write. Termination is not claimed.
- tinyalsa and the mixer are not part of this model. `pcm_open`, `pcm_get_htimestamp`, `pcm_get_buffer_size`, `pcm_mmap_write` and `pcm_close` appear only as logged calls whose answers are parameters. `pcm_is_ready` appears only as its answer, the `ready` parameter, and is not logged.
- `set_output_volumes` and the rest of the audio device (`adev_*` other than opening an output stream, mode, mic and voice settings) are left out. They are fixed writes to the mixer library, which is not part of this model.
- The input stream and its stubs, and the output stream's no-op setters, `dump`, parameters, effects and render position, are left out. They return constants and hold no state.
- The float volume parameters are left out. The acceleration values are kept as integers.
- The stream mutex is kept only as a `locked` flag, to show it is released on every return path. Concurrency is not modelled.
- `usleep`, `nanosleep` and `gettimeofday` are left out as effects. Sleeps are logged with their length, and the time of day is a parameter.
- `ACCELER_DELAY` (from `acceler.h`, which is not part of this model) is left out, so neither the poll's initial `nanosleep` nor the sensor's `minDelay` is represented.
- `lseek`, `read` and `sscanf` are oracles. Their results are parameters, and the parse result is not tied to the bytes read.
- `sdev_close`, the fields of the allocated `sensors_poll_device_t` and the HAL method tables are left out. Memory is represented only by the allocator calls made.
- `Acceler.Accelerometer.Poll`: asks `read` for DATA_LEN − 1 bytes where the source asks for sizeof(buf), so that the terminator fits (see Findings). The source's own read size is modelled by `Acceler.Accelerometer.PollAsWritten`, which stops at the out-of-bounds store.
- `SensorsHw.SensorsActivate`: requires 1 ≤ handle ≤ the table size. The source does no bounds check, and any other handle indexes outside `sensor_devices`, which C leaves undefined.
- `SensorsHw.SensorsSetDelay`: the same handle range as `SensorsActivate`, for the same reason.
- The `enabled` and `delay` fields of a sensor device are carried but never read, as in the source.

## Findings

| source | as written | input that shows it | evidently intended | confidence | as-written member | corrected member |
|---|---|---|---|---|---|---|
| libsensors/acceler.c:69-77 | `read(fd, buf, sizeof(buf))` may return 30, and `buf[ret] = 0` then stores one past the 30-byte buffer | a sysfs reading of 30 or more bytes | read at most DATA_LEN − 1 bytes so the terminator fits | not executed | `Acceler.Accelerometer.PollAsWritten` | `Acceler.Accelerometer.Poll` |
