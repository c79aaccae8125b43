/**
 * The MMA7660 accelerometer driver: it opens a sysfs node once, and on each
 * poll reads "x, y, z" from it and turns the three readings into one
 * accelerometer event. The file descriptor, the bytes `read` returns, the
 * three integers `sscanf` parses and the wall-clock time are all inputs.
 */
module Acceler {
  import opened Wrappers
  import opened SensorTypes

  /** DATA_LEN: the size of the stack buffer the reading is read into. */
  const DataLen: int := 30
  /** NSEC_PER_SEC. */
  const NsecPerSec: int := 1000000000
  /** NSEC_PER_USEC. */
  const NsecPerUsec: int := 1000

  predicate IsInt32(v: int) { -0x8000_0000 <= v < 0x8000_0000 }
  predicate IsInt64(v: int) { -0x8000_0000_0000_0000 <= v < 0x8000_0000_0000_0000 }

  /**
   * timeval_to_ns: seconds widened to 64 bits, scaled to nanoseconds, plus
   * the microseconds scaled to nanoseconds. For a timeval as gettimeofday
   * fills it in, the result fits in 64 bits and splits back into the
   * seconds and the microseconds.
   */
  function TimevalToNs(sec: int, usec: int): (ns: int)
    requires IsInt32(sec) && 0 <= usec < 1000000
    ensures IsInt64(ns)
    ensures ns / NsecPerSec == sec && ns % NsecPerSec == usec * NsecPerUsec
  {
    sec * NsecPerSec + usec * NsecPerUsec
  }

  /** Later timevals give later timestamps, and only they do. */
  lemma TimevalToNsOrdered(sec1: int, usec1: int, sec2: int, usec2: int)
    requires IsInt32(sec1) && 0 <= usec1 < 1000000
    requires IsInt32(sec2) && 0 <= usec2 < 1000000
    ensures TimevalToNs(sec1, usec1) < TimevalToNs(sec2, usec2)
      <==> sec1 < sec2 || (sec1 == sec2 && usec1 < usec2)
  {
    var a, b := TimevalToNs(sec1, usec1), TimevalToNs(sec2, usec2);
    if sec1 < sec2 {
      assert a < (sec1 + 1) * NsecPerSec <= sec2 * NsecPerSec <= b;
    } else if sec2 < sec1 {
      assert b < (sec2 + 1) * NsecPerSec <= sec1 * NsecPerSec <= a;
    }
  }

  /** `h` is `v / 2` as C computes it: the quotient is truncated toward zero. */
  predicate IsTruncatedHalf(v: int, h: int)
  {
    if v >= 0 then 0 <= v - 2 * h <= 1 else -1 <= v - 2 * h <= 0
  }

  /** C's `v / 2` on an int (Dafny's own `/` floors negative quotients). */
  function Half(v: int): (h: int)
    ensures IsTruncatedHalf(v, h)
    ensures IsInt32(v) ==> IsInt32(h)
  {
    if v >= 0 then v / 2 else -((-v) / 2)
  }

  /** Truncation is symmetric about zero: halving commutes with negation. */
  lemma HalfOdd(v: int)
    ensures Half(-v) == -Half(v)
  {
    if v > 0 {
      assert -v < 0;
    }
  }

  /**
   * acceler_init's result: 0 when `open` gave a descriptor, and the
   * (negative) value `open` returned otherwise.
   */
  function InitResult(openResult: int): (ret: int)
    ensures ret <= 0
    ensures ret == 0 <==> openResult >= 0
    ensures ret != 0 ==> ret == openResult
  {
    if openResult < 0 then openResult else 0
  }

  /** acceler_poll's return value for a given `read` result: one event or none. */
  function PollCount(readRet: int): (n: int)
    ensures 0 <= n <= 1
    ensures n == 1 <==> readRet > 0
  {
    if readRet <= 0 then 0 else 1
  }

  /** acceler_have_data: the node can always be read. */
  function HaveData(): (r: int)
    ensures r == 1
  {
    1
  }

  /**
   * The event acceler_poll stores for parsed readings `x`, `y`, `z` at time
   * `ns`: an accelerometer event of the first handle, medium accuracy, with
   * every axis halved the way C halves.
   */
  function AccelerEvent(x: int, y: int, z: int, ns: int): (e: SensorsEvent)
    ensures e.eventType == SensorTypeAccelerometer
    ensures e.sensor == SensorsHandleBase + 1
    ensures e.version == SensorsEventSize && e.timestamp == ns
    ensures e.acceleration.status == SensorStatusAccuracyMedium
    ensures IsTruncatedHalf(x, e.acceleration.x)
    ensures IsTruncatedHalf(y, e.acceleration.y)
    ensures IsTruncatedHalf(z, e.acceleration.z)
  {
    SensorsEvent(SensorsEventSize, SensorsHandleBase + 1, SensorTypeAccelerometer, ns,
      Acceleration(Half(x), Half(y), Half(z), SensorStatusAccuracyMedium))
  }

  /**
   * C's `buf[i] = 0` on the stack buffer `buf`: None stands for a store
   * outside the buffer, which C leaves undefined.
   */
  function StoreTerminator(buf: seq<char>, i: int): (r: Option<seq<char>>)
    ensures r.Some? <==> 0 <= i < |buf|
    ensures r.Some? ==> |r.value| == |buf| && r.value[i] == 0 as char
    ensures r.Some? ==> forall j :: 0 <= j < |buf| && j != i ==> r.value[j] == buf[j]
  {
    if 0 <= i < |buf| then Some(buf[i := 0 as char]) else None
  }

  /** The byte count acceler_poll asks `read` for as written: sizeof(buf). */
  const ReadSizeAsWritten: int := DataLen

  /**
   * As written, `read` may fill the whole buffer and return DATA_LEN; the
   * poll then goes on to store the terminator at buf[DATA_LEN], one past
   * the end.
   */
  lemma FullReadOverrunsBuffer(buf: seq<char>)
    requires |buf| == DataLen
    ensures var ret := ReadSizeAsWritten;
      0 < ret <= ReadSizeAsWritten && StoreTerminator(buf, ret).None?
  {
  }

  /** The byte count the model asks `read` for: one less, to leave room for the terminator. */
  const ReadSize: int := DataLen - 1

  /** With that count, every successful read leaves room for the terminator. */
  lemma TerminatorFits(buf: seq<char>, ret: int)
    requires |buf| == DataLen && 0 < ret <= ReadSize
    ensures StoreTerminator(buf, ret).Some?
    ensures StoreTerminator(buf, ret).value[..ret] == buf[..ret]
  {
    var stored := StoreTerminator(buf, ret).value;
    assert forall j :: 0 <= j < ret ==> stored[j] == buf[j];
  }

  /** How acceler_poll as written ends: with a number of events, or at the out-of-bounds store. */
  datatype PollResult = PollEvents(n: int) | PollOverrun

  /** The driver's one piece of state: the descriptor of the sysfs node. */
  class Accelerometer {
    var fd: int

    /** The static descriptor before acceler_init: zero, like every C static. */
    constructor ()
      ensures fd == 0
    {
      fd := 0;
    }

    /** acceler_init: keep what `open` returned and report failure as its value. */
    method Init(openResult: int) returns (ret: int)
      modifies this
      ensures fd == openResult
      ensures ret == InitResult(openResult)
    {
      ret := 0;
      fd := openResult;
      if fd < 0 {
        ret := fd;
      }
    }

    /**
     * acceler_poll, with `read` returning `readRet` and the bytes `bytes`,
     * `sscanf` parsing `x`, `y`, `z` and gettimeofday giving (sec, usec),
     * but asking `read` for ReadSize bytes so that the terminator always
     * fits. It returns 0 and leaves `data` alone when the read fails, and
     * otherwise returns 1 having written only data[0].
     */
    method Poll(data: array<SensorsEvent>, count: int, readRet: int, bytes: seq<char>,
                x: int, y: int, z: int, sec: int, usec: int) returns (ret: int)
      requires data.Length >= 1
      requires readRet <= ReadSize
      requires readRet > 0 ==> |bytes| == readRet
      requires fd < 0 ==> readRet < 0
      requires IsInt32(sec) && 0 <= usec < 1000000
      modifies data
      ensures ret == PollCount(readRet)
      ensures readRet <= 0 ==> data[..] == old(data[..])
      ensures readRet > 0 ==>
        data[..] == old(data[..])[0 := AccelerEvent(x, y, z, TimevalToNs(sec, usec))]
    {
      var buf := new char[DataLen];
      ret := readRet;
      if ret <= 0 {
        return 0;
      }
      forall i | 0 <= i < ret {
        buf[i] := bytes[i];
      }
      buf[ret] := 0 as char;
      FillEvent(data, x, y, z, sec, usec);
      return 1;
    }

    /**
     * acceler_poll as written: `read` is asked for sizeof(buf) bytes, so it
     * may return DataLen, and the terminator store then falls outside the
     * buffer. That store is reported as PollOverrun and the model stops
     * there, with `data` untouched, since C gives it no meaning.
     */
    method PollAsWritten(data: array<SensorsEvent>, count: int, readRet: int, bytes: seq<char>,
                         x: int, y: int, z: int, sec: int, usec: int) returns (r: PollResult)
      requires data.Length >= 1
      requires readRet <= ReadSizeAsWritten
      requires readRet > 0 ==> |bytes| == readRet
      requires fd < 0 ==> readRet < 0
      requires IsInt32(sec) && 0 <= usec < 1000000
      modifies data
      ensures r == PollOverrun <==> readRet == DataLen
      ensures r != PollOverrun ==> r == PollEvents(PollCount(readRet))
      ensures readRet <= 0 || readRet == DataLen ==> data[..] == old(data[..])
      ensures 0 < readRet < DataLen ==>
        data[..] == old(data[..])[0 := AccelerEvent(x, y, z, TimevalToNs(sec, usec))]
    {
      var buf := new char[DataLen];
      var ret := readRet;
      if ret <= 0 {
        return PollEvents(0);
      }
      forall i | 0 <= i < ret {
        buf[i] := bytes[i];
      }
      if ret >= buf.Length {
        return PollOverrun;
      }
      buf[ret] := 0 as char;
      FillEvent(data, x, y, z, sec, usec);
      return PollEvents(1);
    }

    /** The field-by-field stores into *data that follow a successful read. */
    method FillEvent(data: array<SensorsEvent>, x: int, y: int, z: int, sec: int, usec: int)
      requires data.Length >= 1
      requires IsInt32(sec) && 0 <= usec < 1000000
      modifies data
      ensures data[..] == old(data[..])[0 := AccelerEvent(x, y, z, TimevalToNs(sec, usec))]
    {
      var e := data[0];
      e := e.(acceleration := e.acceleration.(x := Half(x)));
      e := e.(acceleration := e.acceleration.(y := Half(y)));
      e := e.(acceleration := e.acceleration.(z := Half(z)));
      e := e.(acceleration := e.acceleration.(status := SensorStatusAccuracyMedium));
      e := e.(timestamp := TimevalToNs(sec, usec));
      e := e.(version := SensorsEventSize);
      e := e.(eventType := SensorTypeAccelerometer);
      e := e.(sensor := SensorsHandleBase + 1);
      data[0] := e;
    }
  }
}
