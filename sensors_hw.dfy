/**
 * The sensors HAL module of the tiny210 board: a static table of sensor
 * devices (each a set of hooks, some optional), the poll device that
 * dispatches activate / setDelay / poll over that table, and the open
 * routine that initialises every device, rolling back on failure.
 *
 * Hooks are modelled by what they answer: a device's `init`, `poll`,
 * `have_data`, `activate` and `setDelay` are functions of their arguments,
 * and each operation returns the log of hook calls it made, in order.
 */
module SensorsHw {
  import opened Wrappers
  import opened Errno
  import opened SensorTypes
  import Acceler

  /**
   * struct sensor_device. `init`, `poll` and `have_data` must be present;
   * `exit`, `activate` and `setDelay` may be null. `exit` returns nothing,
   * so only its presence matters.
   */
  datatype SensorDevice = SensorDevice(
    enabled: int,
    delay: int,
    init: () -> int,
    hasExit: bool,
    activate: Option<int -> int>,
    setDelay: Option<int -> int>,
    poll: int -> int,
    haveData: () -> int)

  /** One call into a device's hooks; `dev` is the device's table index. */
  datatype HookCall =
    | Init(dev: nat)
    | Exit(dev: nat)
    | Activate(dev: nat, enabled: int)
    | SetDelay(dev: nat, ns: int)
    | HaveData(dev: nat)
    | Poll(dev: nat, data: int, count: int)

  /** A return value together with the hook calls made to produce it. */
  datatype Dispatch = Dispatch(ret: int, calls: seq<HookCall>)

  // ---------------------------------------------------------------- init

  /** The index of the first device whose `init` fails, or |table| if none does. */
  function FirstFailedInit(table: seq<SensorDevice>): (k: nat)
    ensures k <= |table|
    ensures forall i :: 0 <= i < k ==> table[i].init() == 0
    ensures k < |table| ==> table[k].init() != 0
  {
    if table == [] then 0
    else if table[0].init() != 0 then 0
    else 1 + FirstFailedInit(table[1..])
  }

  /** `init` called on devices 0 .. n-1 in index order. */
  function InitCalls(n: nat): (calls: seq<HookCall>)
    ensures |calls| == n
    ensures forall i :: 0 <= i < n ==> calls[i] == Init(i)
  {
    if n == 0 then [] else InitCalls(n - 1) + [Init(n - 1)]
  }

  /** The rollback after device k failed: `exit`, where present, on k-1 down to 0. */
  function RollbackCalls(table: seq<SensorDevice>, k: nat): (calls: seq<HookCall>)
    requires k <= |table|
    ensures |calls| <= k
    ensures forall c :: c in calls ==> c.Exit?
  {
    if k == 0 then []
    else (if table[k - 1].hasExit then [Exit(k - 1)] else []) + RollbackCalls(table, k - 1)
  }

  /** What sensors_init returns and calls: the first failing code and its rollback, or 0. */
  function InitOutcome(table: seq<SensorDevice>): (d: Dispatch)
    ensures d.ret == 0 <==> forall i :: 0 <= i < |table| ==> table[i].init() == 0
    ensures forall c :: c in d.calls ==> c.Init? || c.Exit?
    ensures d.ret == 0 ==> forall c :: c in d.calls ==> c.Init?
  {
    var k := FirstFailedInit(table);
    if k == |table| then Dispatch(0, InitCalls(|table|))
    else Dispatch(table[k].init(), InitCalls(k + 1) + RollbackCalls(table, k))
  }

  /** The first failing device is the one before which every `init` succeeded. */
  lemma {:induction false} FirstFailedInitIs(table: seq<SensorDevice>, i: nat)
    requires i < |table| && table[i].init() != 0
    requires forall j :: 0 <= j < i ==> table[j].init() == 0
    ensures FirstFailedInit(table) == i
  {
    if i > 0 {
      FirstFailedInitIs(table[1..], i - 1);
    }
  }

  /**
   * The rollback only exits devices before the failed one, each at most
   * once, in strictly decreasing index order, and exits exactly those of
   * them that have an `exit` hook.
   */
  lemma {:induction false} RollbackOrder(table: seq<SensorDevice>, k: nat)
    requires k <= |table|
    ensures forall c :: c in RollbackCalls(table, k) ==> c.Exit? && c.dev < k
    ensures forall a, b :: 0 <= a < b < |RollbackCalls(table, k)| ==>
      RollbackCalls(table, k)[a].dev > RollbackCalls(table, k)[b].dev
    ensures forall d :: 0 <= d < k ==> (Exit(d) in RollbackCalls(table, k) <==> table[d].hasExit)
  {
    if k > 0 {
      RollbackOrder(table, k - 1);
      var head: seq<HookCall> := if table[k - 1].hasExit then [Exit(k - 1)] else [];
      var rest := RollbackCalls(table, k - 1);
      assert RollbackCalls(table, k) == head + rest;
      assert Exit(k - 1) in RollbackCalls(table, k) <==> table[k - 1].hasExit;
    }
  }

  /**
   * sensors_init: call every device's `init` in index order; on the first
   * non-zero result, call `exit` on the devices already initialised, last
   * first, and return that result.
   */
  method SensorsInit(table: seq<SensorDevice>) returns (ret: int, calls: seq<HookCall>)
    ensures ret == 0 <==> forall i :: 0 <= i < |table| ==> table[i].init() == 0
    ensures Dispatch(ret, calls) == InitOutcome(table)
  {
    var i := 0;
    ret := 0;
    calls := [];
    while i < |table|
      invariant 0 <= i <= |table|
      invariant ret == 0
      invariant forall j :: 0 <= j < i ==> table[j].init() == 0
      invariant calls == InitCalls(i)
    {
      ret := table[i].init();
      calls := calls + [Init(i)];
      if ret != 0 {
        break;
      }
      i := i + 1;
    }
    if ret == 0 {
      return;
    }
    assert FirstFailedInit(table) == i by {
      FirstFailedInitIs(table, i);
    }
    var j := i - 1;
    while j >= 0
      invariant -1 <= j < i
      invariant calls + RollbackCalls(table, j + 1) == InitCalls(i + 1) + RollbackCalls(table, i)
    {
      ghost var before := calls;
      ghost var exits: seq<HookCall> := if table[j].hasExit then [Exit(j)] else [];
      assert RollbackCalls(table, j + 1) == exits + RollbackCalls(table, j);
      if table[j].hasExit {
        calls := calls + [Exit(j)];
      }
      assert calls + RollbackCalls(table, j) == before + (exits + RollbackCalls(table, j));
      j := j - 1;
    }
    assert RollbackCalls(table, 0) == [];
  }

  // ------------------------------------------------- activate and setDelay

  /**
   * sensors_activate: the device at `handle - 1` (there is no bounds check,
   * so the handle must name a table entry); 0 without any call when its
   * `activate` hook is null, the hook's own result otherwise.
   */
  function SensorsActivate(table: seq<SensorDevice>, handle: int, enabled: int): (d: Dispatch)
    requires 1 <= handle <= |table|
    ensures table[handle - 1].activate.None? ==> d == Dispatch(0, [])
    ensures table[handle - 1].activate.Some? ==>
      d.calls == [Activate(handle - 1, enabled)] && d.ret == table[handle - 1].activate.value(enabled)
  {
    match table[handle - 1].activate
    case None => Dispatch(0, [])
    case Some(hook) => Dispatch(hook(enabled), [Activate(handle - 1, enabled)])
  }

  /** sensors_setDelay: the same dispatch, to the `setDelay` hook. */
  function SensorsSetDelay(table: seq<SensorDevice>, handle: int, ns: int): (d: Dispatch)
    requires 1 <= handle <= |table|
    ensures table[handle - 1].setDelay.None? ==> d == Dispatch(0, [])
    ensures table[handle - 1].setDelay.Some? ==>
      d.calls == [SetDelay(handle - 1, ns)] && d.ret == table[handle - 1].setDelay.value(ns)
  {
    match table[handle - 1].setDelay
    case None => Dispatch(0, [])
    case Some(hook) => Dispatch(hook(ns), [SetDelay(handle - 1, ns)])
  }

  // ---------------------------------------------------------------- poll

  /**
   * The rest of sensors_poll from device `i` on, with `n` events already
   * gathered into the caller's buffer at address `data`: stop once n
   * reaches `count`; otherwise ask the device whether it has data and, if
   * so, poll it for the `count - n` events still wanted.
   */
  function PollFrom(table: seq<SensorDevice>, data: int, count: int, i: nat, n: int): (d: Dispatch)
    requires i <= |table|
    ensures |d.calls| <= 2 * (|table| - i)
    decreases |table| - i
  {
    if i == |table| || n >= count then Dispatch(n, [])
    else if table[i].haveData() != 0 then
      var rest := PollFrom(table, data, count, i + 1, n + table[i].poll(count - n));
      Dispatch(rest.ret, [HaveData(i), Poll(i, data, count - n)] + rest.calls)
    else
      var rest := PollFrom(table, data, count, i + 1, n);
      Dispatch(rest.ret, [HaveData(i)] + rest.calls)
  }

  /** Every device's `poll` reports between 0 and the number of events asked of it. */
  ghost predicate HonestPolls(table: seq<SensorDevice>)
  {
    forall i, m :: 0 <= i < |table| && 0 < m ==> 0 <= table[i].poll(m) <= m
  }

  /**
   * Every poll call made from device `i` on goes to a device at or past
   * `i` that said it had data, asks for a positive number of events that
   * still fits under `count`, and hands over the caller's buffer as is.
   */
  lemma {:induction false} PollCallsShape(table: seq<SensorDevice>, data: int, count: int, i: nat, n: int)
    requires i <= |table|
    ensures forall c :: c in PollFrom(table, data, count, i, n).calls ==> i <= c.dev < |table|
    ensures forall c :: c in PollFrom(table, data, count, i, n).calls && c.Poll? ==>
      c.data == data && 0 < c.count && table[c.dev].haveData() != 0
    ensures HonestPolls(table) && n >= 0 ==> forall c :: c in PollFrom(table, data, count, i, n).calls && c.Poll? ==>
      c.count <= count - n
    decreases |table| - i
  {
    if i < |table| && n < count {
      if table[i].haveData() != 0 {
        var got := table[i].poll(count - n);
        PollCallsShape(table, data, count, i + 1, n + got);
      } else {
        PollCallsShape(table, data, count, i + 1, n);
      }
    }
  }

  /**
   * The count bound: starting from 0 <= n, the total never goes below n,
   * and it stays within `count` as long as every device is honest.
   */
  lemma {:induction false} PollBound(table: seq<SensorDevice>, data: int, count: int, i: nat, n: int)
    requires i <= |table| && HonestPolls(table) && 0 <= n
    ensures n <= PollFrom(table, data, count, i, n).ret
    ensures n <= count ==> PollFrom(table, data, count, i, n).ret <= count
    decreases |table| - i
  {
    if i < |table| && n < count {
      if table[i].haveData() != 0 {
        var got := table[i].poll(count - n);
        assert 0 <= got <= count - n;
        PollBound(table, data, count, i + 1, n + got);
      } else {
        PollBound(table, data, count, i + 1, n);
      }
    }
  }

  /**
   * sensors_poll: walk the table once, polling each device that has data
   * for the events still wanted, until `count` are gathered. Every device
   * is handed the same buffer `data`, not `data + n`.
   */
  method SensorsPoll(table: seq<SensorDevice>, data: int, count: int) returns (n: int, calls: seq<HookCall>)
    ensures Dispatch(n, calls) == PollFrom(table, data, count, 0, 0)
    ensures count <= 0 ==> n == 0 && calls == []
    ensures HonestPolls(table) ==> 0 <= n && (count > 0 ==> n <= count)
  {
    n := 0;
    calls := [];
    var i := 0;
    while i < |table|
      invariant 0 <= i <= |table|
      invariant PollFrom(table, data, count, 0, 0) ==
        Dispatch(PollFrom(table, data, count, i, n).ret, calls + PollFrom(table, data, count, i, n).calls)
    {
      if n >= count {
        break;
      }
      ghost var before := calls;
      calls := calls + [HaveData(i)];
      if table[i].haveData() != 0 {
        ghost var rest := PollFrom(table, data, count, i + 1, n + table[i].poll(count - n));
        calls := calls + [Poll(i, data, count - n)];
        assert calls + rest.calls == before + ([HaveData(i), Poll(i, data, count - n)] + rest.calls);
        n := n + table[i].poll(count - n);
      } else {
        ghost var rest := PollFrom(table, data, count, i + 1, n);
        assert calls + rest.calls == before + ([HaveData(i)] + rest.calls);
      }
      i := i + 1;
    }
    if HonestPolls(table) {
      PollBound(table, data, count, 0, 0);
    }
  }

  // ---------------------------------------------------------------- open

  /** The allocator calls sdev_open makes. */
  datatype MemCall = Malloc | Free

  /**
   * What sdev_open did: its result, its allocator calls, whether it handed
   * a device back to the caller, and the hook calls of sensors_init.
   */
  datatype OpenOutcome = OpenOutcome(ret: int, mem: seq<MemCall>, published: bool, calls: seq<HookCall>)

  /**
   * sdev_open for device id `id`, with `allocOk` telling whether malloc
   * succeeds: -EINVAL for any id but "poll", -ENOMEM when the allocation
   * fails, and otherwise the result of sensors_init, the device being
   * freed on failure and handed back only on success.
   */
  method SdevOpen(id: string, allocOk: bool, table: seq<SensorDevice>) returns (o: OpenOutcome)
    ensures id != SensorsHardwarePoll ==> o == OpenOutcome(-EINVAL, [], false, [])
    ensures id == SensorsHardwarePoll && !allocOk ==> o == OpenOutcome(-ENOMEM, [Malloc], false, [])
    ensures id == SensorsHardwarePoll && allocOk ==>
      o.ret == InitOutcome(table).ret && o.calls == InitOutcome(table).calls &&
      (o.ret == 0 <==> forall i :: 0 <= i < |table| ==> table[i].init() == 0) &&
      (o.ret == 0 ==> o.published && o.mem == [Malloc]) &&
      (o.ret != 0 ==> !o.published && o.mem == [Malloc, Free])
  {
    if id != SensorsHardwarePoll {
      return OpenOutcome(-EINVAL, [], false, []);
    }
    var mem := [Malloc];
    if !allocOk {
      return OpenOutcome(-ENOMEM, mem, false, []);
    }
    var ret, calls := SensorsInit(table);
    if ret != 0 {
      mem := mem + [Free];
      return OpenOutcome(ret, mem, false, calls);
    }
    o := OpenOutcome(0, mem, true, calls);
  }

  // ---------------------------------------------------- the board's table

  /** The `sensors` array: the one sensor the board reports. */
  const Sensors: seq<SensorT> := [
    SensorT("mma7660", "freescale", 1, SensorsHandleBase + 1, SensorTypeAccelerometer, 30, 1, 0)
  ]

  /** sensors_get_sensors_list: the static list and its length. */
  function GetSensorsList(): (r: (int, seq<SensorT>))
    ensures r.0 == |r.1| == 1
    ensures r.1[0].handle == SensorsHandleBase + 1 && r.1[0].sensorType == SensorTypeAccelerometer
  {
    (|Sensors|, Sensors)
  }

  /**
   * The `sensor_devices` array: the accelerometer alone, with only `init`,
   * `poll` and `have_data` set. Its hooks answer as the driver does when
   * `open` returns `openResult` and each `read` returns `readRet`.
   */
  function SensorDevices(openResult: int, readRet: int): (table: seq<SensorDevice>)
    ensures |table| == 1
    ensures !table[0].hasExit && table[0].activate.None? && table[0].setDelay.None?
    ensures table[0].haveData() == 1
    ensures table[0].init() == 0 <==> openResult >= 0
    ensures forall m :: table[0].poll(m) == 1 <==> readRet > 0
  {
    [SensorDevice(0, 0,
      () => Acceler.InitResult(openResult),
      false, None, None,
      (count: int) => Acceler.PollCount(readRet),
      () => Acceler.HaveData())]
  }

  /**
   * Every handle the list reports names an entry of the device table, and
   * activating or re-timing it calls nothing and returns 0, since the
   * accelerometer sets neither hook.
   */
  lemma ListedHandlesDispatch(openResult: int, readRet: int, enabled: int, ns: int)
    ensures forall s :: s in GetSensorsList().1 ==>
      1 <= s.handle <= |SensorDevices(openResult, readRet)| &&
      SensorsActivate(SensorDevices(openResult, readRet), s.handle, enabled) == Dispatch(0, []) &&
      SensorsSetDelay(SensorDevices(openResult, readRet), s.handle, ns) == Dispatch(0, [])
  {
  }

  /**
   * On the board's table, opening the poll device succeeds exactly when
   * the accelerometer's node opens, fails with the `open` result otherwise,
   * and never exits anything.
   */
  lemma BoardInit(openResult: int, readRet: int)
    ensures InitOutcome(SensorDevices(openResult, readRet)) ==
      Dispatch(Acceler.InitResult(openResult), [Init(0)])
  {
    var table := SensorDevices(openResult, readRet);
    if openResult < 0 {
      assert FirstFailedInit(table) == 0;
    } else {
      assert table[1..] == [];
      assert FirstFailedInit(table) == 1;
    }
  }

  /**
   * On the board's table a poll asking for at least one event gets one
   * event exactly when the read succeeds, and the accelerometer is honest.
   */
  lemma BoardPoll(openResult: int, readRet: int, data: int, count: int)
    requires count > 0
    ensures HonestPolls(SensorDevices(openResult, readRet))
    ensures PollFrom(SensorDevices(openResult, readRet), data, count, 0, 0) ==
      Dispatch(Acceler.PollCount(readRet), [HaveData(0), Poll(0, data, count)])
  {
    var table := SensorDevices(openResult, readRet);
    var got := Acceler.PollCount(readRet);
    assert PollFrom(table, data, count, 1, got) == Dispatch(got, []);
  }
}
