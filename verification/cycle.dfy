/** One poll cycle, `DataCollector.collect_and_store`: fetch the device map,
    run every device through `Collector.ReadDevice`, keep one record per device
    id, and write the batch of points when it is not empty. */
module Cycle {
  import opened Wrappers
  import opened Exceptions
  import opened DeviceMap
  import opened Reader
  import opened Records
  import opened Collector

  /** What each of the first n devices does in the cycle. */
  function Steps(env: Env, n: nat): (s: seq<DeviceStep>)
    ensures |s| == n && forall i :: 0 <= i < n ==> s[i] == ReadDevice(env, i)
  {
    seq(n, i requires 0 <= i => ReadDevice(env, i))
  }

  /** The device loop so far: the records, or the exception that left it. */
  datatype Poll = Polled(datas: Datas) | Abort(kind: ExcKind)

  /** `for device in devices` over the first n devices, given what each does. */
  function DeviceLoop(devs: seq<Device>, steps: seq<DeviceStep>, n: nat): (r: Poll)
    requires n <= |devs| && n <= |steps|
    ensures r.Polled? ==> Wf(r.datas)
  {
    if n == 0 then Polled(Empty)
    else
      match DeviceLoop(devs, steps, n - 1)
      case Abort(e) => Abort(e)
      case Polled(d) =>
        match steps[n - 1]
        case Skipped => Polled(d)
        case Complete(rec) => Polled(Put(d, devs[n - 1].id, rec))
        case Partial(rec, _) => Polled(Put(d, devs[n - 1].id, rec))
        case Aborted(e) => Abort(e)
  }

  /** The loop is left with the exception of the first device that raises past
      its handler; the devices after it are never read. */
  lemma {:induction false} FirstAbortEscapes(devs: seq<Device>, steps: seq<DeviceStep>, n: nat, i: nat)
    requires i < n <= |devs| && n <= |steps|
    requires steps[i].Aborted?
    requires forall i' :: 0 <= i' < i ==> !steps[i'].Aborted?
    ensures DeviceLoop(devs, steps, n) == Abort(steps[i].kind)
  {
    if i < n - 1 {
      FirstAbortEscapes(devs, steps, n - 1, i);
    } else {
      AbortIffSomeDeviceAborts(devs, steps, n - 1);
    }
  }

  /** The loop is only ever left by the exception of one of its devices. */
  lemma {:induction false} AbortComesFromADevice(devs: seq<Device>, steps: seq<DeviceStep>, n: nat)
    requires n <= |devs| && n <= |steps|
    requires DeviceLoop(devs, steps, n).Abort?
    ensures exists i :: 0 <= i < n && steps[i] == Aborted(DeviceLoop(devs, steps, n).kind)
  {
    if DeviceLoop(devs, steps, n - 1).Abort? {
      AbortComesFromADevice(devs, steps, n - 1);
    }
  }

  /** The loop is left exactly when some device raises past its handler. */
  lemma {:induction false} AbortIffSomeDeviceAborts(devs: seq<Device>, steps: seq<DeviceStep>, n: nat)
    requires n <= |devs| && n <= |steps|
    ensures DeviceLoop(devs, steps, n).Abort? <==> exists i :: 0 <= i < n && steps[i].Aborted?
  {
    if n > 0 {
      AbortIffSomeDeviceAborts(devs, steps, n - 1);
    }
  }

  /** The ids of the first n devices that created a record. */
  function RecordIds(devs: seq<Device>, steps: seq<DeviceStep>, n: nat): (ids: set<int>)
    requires n <= |devs| && n <= |steps|
    ensures forall i :: 0 <= i < n && steps[i].HasRecord() ==> devs[i].id in ids
  {
    if n == 0 then {}
    else RecordIds(devs, steps, n - 1) + (if steps[n - 1].HasRecord() then {devs[n - 1].id} else {})
  }

  /** Every id in `RecordIds` belongs to a device that created a record. */
  lemma {:induction false} RecordIdsHaveDevices(devs: seq<Device>, steps: seq<DeviceStep>, n: nat, id: int)
    requires n <= |devs| && n <= |steps|
    requires id in RecordIds(devs, steps, n)
    ensures exists i :: 0 <= i < n && devs[i].id == id && steps[i].HasRecord()
  {
    if !(steps[n - 1].HasRecord() && devs[n - 1].id == id) {
      RecordIdsHaveDevices(devs, steps, n - 1, id);
    }
  }

  /** Records are keyed by device id: the keys of `datas` are the ids of the
      devices that created a record. */
  lemma {:induction false} LoopKeys(devs: seq<Device>, steps: seq<DeviceStep>, n: nat)
    requires n <= |devs| && n <= |steps|
    requires DeviceLoop(devs, steps, n).Polled?
    ensures DeviceLoop(devs, steps, n).datas.rec.Keys == RecordIds(devs, steps, n)
  {
    if n > 0 {
      var prev := DeviceLoop(devs, steps, n - 1);
      assert prev.Polled?;
      LoopKeys(devs, steps, n - 1);
      var s := steps[n - 1];
      if s.HasRecord() {
        assert DeviceLoop(devs, steps, n).datas == Put(prev.datas, devs[n - 1].id, s.rec);
        PutKeepsOthers(prev.datas, devs[n - 1].id, s.rec);
      }
    }
  }

  /** `datas` has a key for an id exactly when some device with that id
      created a record. */
  lemma {:induction false} LoopKeyIff(devs: seq<Device>, steps: seq<DeviceStep>, n: nat, id: int)
    requires n <= |devs| && n <= |steps|
    requires DeviceLoop(devs, steps, n).Polled?
    ensures id in DeviceLoop(devs, steps, n).datas.rec <==>
      exists i :: 0 <= i < n && devs[i].id == id && steps[i].HasRecord()
  {
    LoopKeys(devs, steps, n);
    if id in RecordIds(devs, steps, n) {
      RecordIdsHaveDevices(devs, steps, n, id);
    }
  }

  /** A repeated id keeps the record of the last device with that id that
      created one. */
  lemma {:induction false} RecordOfLastDevice(devs: seq<Device>, steps: seq<DeviceStep>, n: nat, i: nat)
    requires i < n <= |devs| && n <= |steps|
    requires DeviceLoop(devs, steps, n).Polled?
    requires steps[i].HasRecord()
    requires forall i' :: i < i' < n && devs[i'].id == devs[i].id ==> !steps[i'].HasRecord()
    ensures devs[i].id in DeviceLoop(devs, steps, n).datas.rec
    ensures DeviceLoop(devs, steps, n).datas.rec[devs[i].id] == RecordOf(steps[i])
  {
    var prev := DeviceLoop(devs, steps, n - 1);
    var s := steps[n - 1];
    assert prev.Polled?;
    if i == n - 1 {
      assert DeviceLoop(devs, steps, n).datas == Put(prev.datas, devs[i].id, s.rec);
    } else {
      RecordOfLastDevice(devs, steps, n - 1, i);
      if s.HasRecord() {
        assert DeviceLoop(devs, steps, n).datas == Put(prev.datas, devs[n - 1].id, s.rec);
        PutKeepsOthers(prev.datas, devs[n - 1].id, s.rec);
      }
    }
  }

  /** The device at position i is the last one with its id to create a record. */
  ghost predicate LastRecordFor(devs: seq<Device>, steps: seq<DeviceStep>, i: nat)
    requires i < |devs| && |devs| <= |steps|
  {
    && steps[i].HasRecord()
    && forall i' :: i < i' < |devs| && devs[i'].id == devs[i].id ==> !steps[i'].HasRecord()
  }

  /** Every point of the batch built after the loop belongs to a device id
      that created a record. */
  lemma BatchPointsHaveDevices(devs: seq<Device>, steps: seq<DeviceStep>, tag: string, now: int)
    requires |devs| <= |steps|
    requires DeviceLoop(devs, steps, |devs|).Polled?
    ensures forall p <- BuildBatch(DeviceLoop(devs, steps, |devs|).datas, tag, now) ::
      exists i :: 0 <= i < |devs| && devs[i].id == p.id && steps[i].HasRecord()
  {
    var b := BuildBatch(DeviceLoop(devs, steps, |devs|).datas, tag, now);
    forall p <- b
      ensures exists i :: 0 <= i < |devs| && devs[i].id == p.id && steps[i].HasRecord()
    {
      LoopKeyIff(devs, steps, |devs|, p.id);
    }
  }

  /** The batch built after the loop has a point for each device id that
      created a record, holding the record of the last device with that id. */
  lemma BatchCoversDevices(devs: seq<Device>, steps: seq<DeviceStep>, tag: string, now: int, i: nat)
    requires |devs| <= |steps|
    requires DeviceLoop(devs, steps, |devs|).Polled?
    requires i < |devs| && LastRecordFor(devs, steps, i)
    ensures var b := BuildBatch(DeviceLoop(devs, steps, |devs|).datas, tag, now);
      exists k :: 0 <= k < |b| && b[k].id == devs[i].id && b[k].fields == RecordOf(steps[i])
  {
    var b := BuildBatch(DeviceLoop(devs, steps, |devs|).datas, tag, now);
    RecordOfLastDevice(devs, steps, |devs|, i);
    var k :| 0 <= k < |b| && b[k].id == devs[i].id;
    assert b[k] in b;
  }

  /** How the cycle ends: normally, or by an exception leaving `collect_and_store`. */
  datatype Outcome = Finished | Escaped(kind: ExcKind)

  /** The device cache afterwards, the batch handed to `write_points` (None when
      it is not called), and how the cycle ended. */
  datatype CycleResult = CycleResult(cache: Cache, written: Option<seq<Point>>, outcome: Outcome)

  /** `collect_and_store`: `f` is the device file, `now` the cycle's timestamp. */
  function CollectAndStore(c: Cache, f: DeviceFile, env: Env, now: int): (r: CycleResult)
    // the cache update of get_devices survives whatever happens later
    ensures r.cache == GetDevices(c, f).cache
    // write_points is only called with a non-empty batch, all of one timestamp
    ensures r.written.Some? ==>
      |r.written.value| > 0 && forall p <- r.written.value :: p.time == now
    // a write failure is re-raised; a successful write finishes the cycle
    ensures r.written.Some? ==>
      r.outcome == (if env.write.Some? then Escaped(env.write.value) else Finished)
    // a batch is only written once the device map was found
    ensures r.written.Some? ==> f.present && r.cache.devices.Some?
    // before the write, ModbusError never ends the cycle
    ensures r.written.None? && r.outcome.Escaped? ==> r.outcome.kind != ModbusError
    // a missing device file or a None map ends the cycle before any device is read
    ensures !f.present ==> r.written.None? && r.outcome == Escaped(AssertionError)
    ensures f.present && r.cache.devices.None? ==> r.written.None? && r.outcome == Escaped(TypeError)
  {
    var fetch := GetDevices(c, f);
    match fetch.result
    case Failure(e) => CycleResult(fetch.cache, None, Escaped(e))
    case Success(None) => CycleResult(fetch.cache, None, Escaped(TypeError))
    case Success(Some(devs)) =>
      var steps := Steps(env, |devs|);
      match DeviceLoop(devs, steps, |devs|)
      case Abort(e) =>
        AbortComesFromADevice(devs, steps, |devs|);
        CycleResult(fetch.cache, None, Escaped(e))
      case Polled(d) =>
        if d.order == [] then CycleResult(fetch.cache, None, Finished)
        else
          assert d.order[0] in d.order;
          LoopKeyIff(devs, steps, |devs|, d.order[0]);
          // the comprehension reads `device`, left bound to the last device iterated
          var batch := BuildBatch(d, devs[|devs| - 1].name, now);
          match env.write
          case None => CycleResult(fetch.cache, Some(batch), Finished)
          case Some(e) => CycleResult(fetch.cache, Some(batch), Escaped(e))
  }

  /** A reload that installs an empty `devices` entry and re-reads the same
      modification time makes every later cycle raise TypeError before any
      device is read, until the file's modification time changes. */
  lemma EmptyDeviceListStalls(c: Cache, f: DeviceFile, fs: seq<DeviceFile>, g: DeviceFile, env: Env, now: int)
    requires NeedsReload(c, f) && f.load == Loaded(None, Some(f.mtime))
    requires forall k :: 0 <= k < |fs| ==> fs[k].mtime == f.mtime
    requires g.present && g.mtime == f.mtime
    ensures CollectAndStore(Replay(GetDevices(c, f).cache, fs), g, env, now)
      == CycleResult(Cache(None, f.mtime), None, Escaped(TypeError))
  {
    ReloadHappensOnce(c, f, fs);
  }

  /** The first device that raises past its handler ends the cycle with its
      own exception, whatever it is, and nothing is written. */
  lemma DeviceAbortEndsCycle(c: Cache, f: DeviceFile, env: Env, now: int, devs: seq<Device>, i: nat)
    requires f.present && GetDevices(c, f).cache.devices == Some(devs)
    requires i < |devs| && ReadDevice(env, i).Aborted?
    requires forall i' :: 0 <= i' < i ==> !ReadDevice(env, i').Aborted?
    ensures CollectAndStore(c, f, env, now)
      == CycleResult(GetDevices(c, f).cache, None, Escaped(ReadDevice(env, i).kind))
  {
    FirstAbortEscapes(devs, Steps(env, |devs|), |devs|, i);
  }

  /** A cycle in which no device aborts and none creates a record writes
      nothing and returns normally. */
  lemma NoRecordFinishes(c: Cache, f: DeviceFile, env: Env, now: int, devs: seq<Device>)
    requires f.present && GetDevices(c, f).cache.devices == Some(devs)
    requires forall i :: 0 <= i < |devs| ==> !ReadDevice(env, i).Aborted? && !ReadDevice(env, i).HasRecord()
    ensures CollectAndStore(c, f, env, now) == CycleResult(GetDevices(c, f).cache, None, Finished)
  {
    var steps := Steps(env, |devs|);
    AbortIffSomeDeviceAborts(devs, steps, |devs|);
    LoopRecordsIff(devs, steps);
  }

  /** Ten retried failures for one parameter raise RuntimeError, which the
      per-device handler does not catch: the cycle ends before any write. */
  lemma ExhaustedRetriesAbortCycle(c: Cache, f: DeviceFile, env: Env, now: int,
                                   devs: seq<Device>, i: nat, ps: seq<Param>, j: nat)
    requires f.present && GetDevices(c, f).cache.devices == Some(devs)
    requires i < |devs|
    requires forall i' :: 0 <= i' < i ==> !ReadDevice(env, i').Aborted?
    requires env.connect(i).None? && env.parameters(i) == Success(ps)
    requires j < |ps|
    requires forall m :: 0 <= m < j ==> ReadAt(env, i, m).Value?
    requires forall k :: 0 <= k < MaxAttempts ==> RetryableFailure(env.execute(i, j)(k))
    ensures CollectAndStore(c, f, env, now) == CycleResult(GetDevices(c, f).cache, None, Escaped(RuntimeError))
  {
    ExhaustionRaisesRuntimeError(env.execute(i, j));
    ReadFromStopsAt(ps, Outcomes(env, i, |ps|), 0, map[], j);
    var steps := Steps(env, |devs|);
    assert steps[i] == Aborted(RuntimeError);
    FirstAbortEscapes(devs, steps, |devs|, i);
  }

  /** When no device raises past its handler, the loop visits every device and
      `write_points` is called exactly when some device created a record. */
  lemma WriteIffSomeRecord(c: Cache, f: DeviceFile, env: Env, now: int, devs: seq<Device>)
    requires f.present && GetDevices(c, f).cache.devices == Some(devs)
    requires forall i :: 0 <= i < |devs| ==> !ReadDevice(env, i).Aborted?
    ensures CollectAndStore(c, f, env, now).written.Some? <==>
      exists i :: 0 <= i < |devs| && ReadDevice(env, i).HasRecord()
  {
    var steps := Steps(env, |devs|);
    AbortIffSomeDeviceAborts(devs, steps, |devs|);
    LoopRecordsIff(devs, steps);
  }

  /** A completed device loop leaves `datas` non-empty exactly when some
      device created a record. */
  lemma LoopRecordsIff(devs: seq<Device>, steps: seq<DeviceStep>)
    requires |devs| <= |steps|
    requires DeviceLoop(devs, steps, |devs|).Polled?
    ensures DeviceLoop(devs, steps, |devs|).datas.order != [] <==>
      exists i :: 0 <= i < |devs| && steps[i].HasRecord()
  {
    var d := DeviceLoop(devs, steps, |devs|).datas;
    if exists i :: 0 <= i < |devs| && steps[i].HasRecord() {
      var i :| 0 <= i < |devs| && steps[i].HasRecord();
      LoopKeyIff(devs, steps, |devs|, devs[i].id);
      assert devs[i].id in d.order;
    } else if d.order != [] {
      assert d.order[0] in d.order;
      LoopKeyIff(devs, steps, |devs|, d.order[0]);
    }
  }

  /** The batch handed to `write_points` is built from the records of a
      completed device loop, tagged with the last device's name. */
  lemma WrittenIsBatchOf(c: Cache, f: DeviceFile, env: Env, now: int, devs: seq<Device>)
    requires f.present && GetDevices(c, f).cache.devices == Some(devs)
    requires CollectAndStore(c, f, env, now).written.Some?
    ensures |devs| > 0 && DeviceLoop(devs, Steps(env, |devs|), |devs|).Polled?
    ensures CollectAndStore(c, f, env, now).written.value ==
      BuildBatch(DeviceLoop(devs, Steps(env, |devs|), |devs|).datas, devs[|devs| - 1].name, now)
  {
  }

  /** Every written point carries the cycle's timestamp and, because the
      comprehension reads the loop variable left over from the device loop, the
      name of the last device in the list; no device id has two points. */
  lemma WrittenBatchTags(c: Cache, f: DeviceFile, env: Env, now: int, devs: seq<Device>)
    requires f.present && GetDevices(c, f).cache.devices == Some(devs)
    requires CollectAndStore(c, f, env, now).written.Some?
    ensures var b := CollectAndStore(c, f, env, now).written.value;
      && |devs| > 0
      && (forall p <- b :: p.measurement == Measurement && p.time == now && p.device == devs[|devs| - 1].name)
      && (forall k1, k2 :: 0 <= k1 < k2 < |b| ==> b[k1].id != b[k2].id)
  {
    WrittenIsBatchOf(c, f, env, now, devs);
  }

  /** The written batch has a point for each device id that got a record, with
      the record of the last device bearing that id, and no other points. */
  lemma WrittenBatchRecords(c: Cache, f: DeviceFile, env: Env, now: int, devs: seq<Device>, b: seq<Point>)
    requires f.present && GetDevices(c, f).cache.devices == Some(devs)
    requires CollectAndStore(c, f, env, now).written == Some(b)
    ensures forall p <- b :: exists i :: 0 <= i < |devs| && devs[i].id == p.id && ReadDevice(env, i).HasRecord()
    ensures forall i :: 0 <= i < |devs| && LastRecordFor(devs, Steps(env, |devs|), i) ==>
      exists k :: 0 <= k < |b| && b[k].id == devs[i].id && b[k].fields == RecordOf(ReadDevice(env, i))
  {
    var steps := Steps(env, |devs|);
    WrittenIsBatchOf(c, f, env, now, devs);
    BatchPointsHaveDevices(devs, steps, devs[|devs| - 1].name, now);
    forall i | 0 <= i < |devs| && LastRecordFor(devs, steps, i)
      ensures exists k :: 0 <= k < |b| && b[k].id == devs[i].id && b[k].fields == RecordOf(ReadDevice(env, i))
    {
      BatchCoversDevices(devs, steps, devs[|devs| - 1].name, now, i);
    }
  }

  /** No oracle of the cycle raises a BaseException outside Exception. */
  ghost predicate InterruptFree(env: Env) {
    && (forall i :: env.connect(i) != Some(Interrupt))
    && (forall i :: env.parameters(i) != Failure(Interrupt))
    && (forall i, j, k :: env.execute(i, j)(k) != Fail(Interrupt))
    && env.write != Some(Interrupt)
  }

  /** Whatever escapes a cycle whose oracles raise only Exception subclasses is
      itself an Exception subclass, so the scheduler's handler catches it. */
  lemma CycleFaultsAreExceptions(c: Cache, f: DeviceFile, env: Env, now: int)
    requires InterruptFree(env)
    ensures CollectAndStore(c, f, env, now).outcome.Escaped? ==>
      IsException(CollectAndStore(c, f, env, now).outcome.kind)
  {
    var fetch := GetDevices(c, f);
    if f.present && fetch.cache.devices.Some? {
      var devs := fetch.cache.devices.value;
      var steps := Steps(env, |devs|);
      if DeviceLoop(devs, steps, |devs|).Abort? {
        AbortComesFromADevice(devs, steps, |devs|);
        var i :| 0 <= i < |devs| && steps[i] == Aborted(DeviceLoop(devs, steps, |devs|).kind);
        AbortedByAnOracle(env, i);
      }
    }
  }
}
