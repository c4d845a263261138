/** The device-map cache of DataCollector: the parsed device file is kept
    together with the modification time it was loaded at, and is reloaded only
    when the file's modification time differs from that stamp. */
module DeviceMap {
  import opened Wrappers
  import opened Exceptions

  /** One entry of the device file's `devices` list, reduced to the fields the
      poll cycle reads itself. The serial settings and the register file named
      by `type` are consumed by oracles (see Collector.Env). */
  datatype Device = Device(id: int, name: string)

  /** `device_map` and `device_map_last_change`. */
  datatype Cache = Cache(devices: Option<seq<Device>>, stamp: int)

  /** The state the constructor sets up before its first reload. */
  const Initial: Cache := Cache(None, -1)

  /** What a reload attempt yields.
      `LoadFailed`: opening or parsing the file, or looking up `devices`, raised.
      `Loaded(ds, restamp)`: the map `ds` was installed, None when the file's
      `devices` key is empty; `restamp` is the second modification-time lookup,
      None when that lookup raised after the map had already been assigned. */
  datatype Load = LoadFailed | Loaded(devices: Option<seq<Device>>, restamp: Option<int>)

  /** The device file as the cache observes it in one call. */
  datatype DeviceFile = DeviceFile(present: bool, mtime: int, load: Load)

  /** The cache after a call, and what the call returned or raised. */
  datatype Fetch = Fetch(cache: Cache, result: Result<Option<seq<Device>>, ExcKind>)

  /** A call attempts a reload exactly when this holds. */
  predicate NeedsReload(c: Cache, f: DeviceFile) {
    f.present && f.mtime != c.stamp
  }

  /** `get_devices`. */
  function GetDevices(c: Cache, f: DeviceFile): (r: Fetch)
    // a missing file is an AssertionError that leaves the cache alone
    ensures !f.present ==> r.cache == c && r.result == Failure(AssertionError)
    // otherwise the call returns whatever map the cache holds afterwards
    ensures f.present ==> r.result == Success(r.cache.devices)
    // without a reload nothing changes
    ensures !NeedsReload(c, f) ==> r.cache == c
    // a reload that fails to load changes nothing
    ensures f.load.LoadFailed? ==> r.cache == c
    // the map is replaced only by a reload that loaded, and then by the loaded map
    ensures r.cache.devices != c.devices ==> NeedsReload(c, f) && f.load.Loaded?
    ensures NeedsReload(c, f) && f.load.Loaded? ==> r.cache.devices == f.load.devices
    // the stamp moves only to the modification time read after a successful load
    ensures r.cache.stamp != c.stamp ==>
      NeedsReload(c, f) && f.load.Loaded? && f.load.restamp == Some(r.cache.stamp)
    ensures NeedsReload(c, f) && f.load.Loaded? && f.load.restamp.Some? ==>
      r.cache.stamp == f.load.restamp.value
  {
    if !f.present then Fetch(c, Failure(AssertionError))
    else
      var c' :=
        if f.mtime == c.stamp then c
        else
          match f.load
          case LoadFailed => c
          case Loaded(ds, restamp) =>
            // a failed second lookup leaves the stamp where it was
            Cache(ds, if restamp.Some? then restamp.value else c.stamp);
      Fetch(c', Success(c'.devices))
  }

  /** The constructor: it starts from `Initial` and lists the devices of a
      first `get_devices` call through `sorted`, which raises TypeError on a
      None map. A collector therefore exists only once a reload has installed
      a map that is not None. */
  function Construct(f: DeviceFile): (r: Result<Cache, ExcKind>)
    ensures !f.present ==> r == Failure(AssertionError)
    ensures f.present && r.Failure? ==> r.error == TypeError
    // success means the first reload loaded a map, and the cache holds it
    ensures r.Success? ==>
      && NeedsReload(Initial, f) && f.load.Loaded? && f.load.devices.Some?
      && r.value.devices == f.load.devices
    ensures NeedsReload(Initial, f) && f.load.Loaded? && f.load.devices.Some? ==>
      r == Success(GetDevices(Initial, f).cache)
  {
    var fetch := GetDevices(Initial, f);
    match fetch.result
    case Failure(e) => Failure(e)
    case Success(None) => Failure(TypeError)
    case Success(Some(_)) => Success(fetch.cache)
  }

  /** The cache after calling `get_devices` once per file observation, in order. */
  function Replay(c: Cache, fs: seq<DeviceFile>): Cache
  {
    if |fs| == 0 then c else GetDevices(Replay(c, fs[..|fs| - 1]), fs[|fs| - 1]).cache
  }

  /** While the file keeps a modification time different from the stamp and
      every load fails, the cache keeps the old map and stamp, so every call
      of the run attempts the reload again. */
  lemma {:induction false} FailedReloadKeepsRetrying(c: Cache, m: int, fs: seq<DeviceFile>)
    requires m != c.stamp
    requires forall k :: 0 <= k < |fs| ==> fs[k] == DeviceFile(true, m, LoadFailed)
    ensures Replay(c, fs) == c
    ensures forall k :: 0 <= k < |fs| ==> NeedsReload(Replay(c, fs[..k]), fs[k])
  {
    if |fs| > 0 {
      var init := fs[..|fs| - 1];
      FailedReloadKeepsRetrying(c, m, init);
      forall k | 0 <= k < |fs|
        ensures NeedsReload(Replay(c, fs[..k]), fs[k])
      {
        if k < |fs| - 1 {
          assert fs[..k] == init[..k];
        } else {
          assert fs[..k] == init;
        }
      }
    }
  }

  /** Once the stamp equals the file's modification time, no later call with
      that modification time reloads: the cache is stable whatever the loads
      would have produced and whether or not the file is found. */
  lemma {:induction false} LoadedMapIsStable(c: Cache, fs: seq<DeviceFile>)
    requires forall k :: 0 <= k < |fs| ==> fs[k].mtime == c.stamp
    ensures Replay(c, fs) == c
  {
    if |fs| > 0 {
      LoadedMapIsStable(c, fs[..|fs| - 1]);
    }
  }

  /** A reload that loads and re-reads the same modification time serves the
      new map on every later call while the file is unchanged. */
  lemma {:induction false} ReloadHappensOnce(c: Cache, f: DeviceFile, fs: seq<DeviceFile>)
    requires NeedsReload(c, f) && f.load.Loaded? && f.load.restamp == Some(f.mtime)
    requires forall k :: 0 <= k < |fs| ==> fs[k].mtime == f.mtime
    ensures Replay(GetDevices(c, f).cache, fs) == Cache(f.load.devices, f.mtime)
  {
    LoadedMapIsStable(GetDevices(c, f).cache, fs);
  }
}
