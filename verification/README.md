# modbus-logger poll cycle, modelled in Dafny

`read_modbus_device.py` polls energy meters on one serial Modbus RTU port and writes
what it reads to InfluxDB. This project models its control logic:

- the device-map cache of `DataCollector.get_devices`;
- the per-parameter retry loop of `collect_and_store`;
- per-device record assembly, keyed by device id;
- construction and writing of the batch of points;
- the `repeat` scheduler that drives the cycle.

Every external call is an oracle, so every outcome is a function of the oracles'
answers. The oracles are the serial port and `RtuMaster`, the YAML files and their
modification times, the InfluxDB client and the clock.

Modules, one per component:

- `Exceptions`: the exception classes the cycle tells apart. ValueError, TypeError
  and IOError are retried. ModbusError is caught per device. RuntimeError means the
  retries ran out. `Interrupt` stands for a BaseException outside `Exception`
  (KeyboardInterrupt, SystemExit).
- `DeviceMap`: `get_devices` as a transition on `Cache(devices, stamp)`. `Replay`
  runs it over a sequence of file observations.
- `Reader`: the retry loop. `Retry` is its reference definition over the answers of
  successive `master.execute` calls. `ReadParameter` is the loop as written, with
  the counter decremented before each call, and is proved equal to `Retry`.
- `Records`: `datas` as an insertion-ordered dict, and `BuildBatch`, the
  `json_body` comprehension.
- `Collector`: one device. `ReadFrom` is the parameter loop over the outcomes of
  the retry loops, and `ReadDevice` is the body of `for device in devices` with its
  ModbusError handler.
- `Cycle`: the device loop (`DeviceLoop`, over what each device does) and the
  whole cycle (`CollectAndStore`).
- `Scheduler`: the sleep computation and `Repeat`.

A register file is a YAML mapping, so its parameter names are distinct. The model
does not rely on that: a repeated name keeps the value of its last read.

Time is integer ticks. Python's `%` floors. For the positive interval `repeat`
uses, that equals Dafny's Euclidean `%`.

Facts about the code that shape the model:

- A parameter gets 10 attempts.
- Attempts follow each other without a pause.
- Exhausting the attempts raises RuntimeError, which ends the whole cycle before
  any write.
- Registers are stored raw, as the list `master.execute` returns.
- There is a single InfluxDB sink, written in every cycle whose batch is non-empty.
- Failing to open the serial port is an IOError outside the retry loop, and it ends
  the cycle.
- The scheduler sleeps until the next multiple of the interval after the start time.
- A device file whose `devices` key is empty installs None as the map. Every later
  cycle then raises TypeError until the file changes.

## Model

| member | source | states |
|---|---|---|
| DeviceMap.GetDevices | read_modbus_device.py:33-44 | A missing file raises AssertionError and changes nothing. Otherwise the current map is returned. The map changes only through a reload, which happens only when the mtime differs from the stamp, and then becomes the loaded map, which may be None. The stamp changes only to the mtime read after a successful load. A failed load leaves map and stamp as they were. |
| DeviceMap.Construct | read_modbus_device.py:23-44 | The constructor fails with AssertionError when the file is missing, and otherwise only with TypeError. It succeeds exactly when its first call to `get_devices` reloads and installs a map that is not None, and then the cache holds that map. |
| DeviceMap.FailedReloadKeepsRetrying | read_modbus_device.py:35-43 | While the mtime differs from the stamp and every load fails, the cache keeps the old map and stamp, so every call in the run attempts the reload again. |
| DeviceMap.LoadedMapIsStable | read_modbus_device.py:35-44 | Once the stamp equals the file's mtime, any number of later calls with that mtime leave the cache unchanged. |
| DeviceMap.ReloadHappensOnce | read_modbus_device.py:35-44 | A successful reload that re-reads the same mtime serves the new map with that stamp on every later call while the file is unchanged. |
| Reader.RetryFrom | read_modbus_device.py:75-101 | From attempt k on: the loop makes more than k and at most 10 calls. Every call before the last failed with a retried class. The last call decides the outcome. |
| Reader.Retry | read_modbus_device.py:74-101 | Between 1 and 10 calls. All calls but the last fail with ValueError, TypeError or IOError. The last call either succeeded and its registers are the value, or raised a non-retried class that is re-raised, or was the 10th retried failure and RuntimeError is raised. |
| Reader.StopsAtFirstDecisive | read_modbus_device.py:75-101 | The first call that succeeds, or raises anything other than the three retried classes, is the last call made. Its value, or its exception, is the outcome. |
| Reader.ExhaustionRaisesRuntimeError | read_modbus_device.py:81-98 | Ten retried failures in a row mean exactly ten calls and RuntimeError. |
| Reader.RaisedComesFromACall | read_modbus_device.py:81-101 | An exception leaving the loop is RuntimeError or the one the last call raised. |
| Reader.RaisedByExhaustionOrCall | read_modbus_device.py:76-101 | An exception leaving the loop is either the RuntimeError that follows ten retried failures, or the exception one of the ten calls raised. |
| Reader.ReadParameter | read_modbus_device.py:74-101 | The loop as written, counter decremented before each call, agrees with `Retry` on outcome and number of calls. Every call reads 2 holding registers (function code 3) from the device's slave id at the configured address. |
| Records.Put | read_modbus_device.py:69 | Assigning `datas[id]` keeps the dict well formed, with every key exactly once, and afterwards the key holds the new record. |
| Records.PutKeepsOthers | read_modbus_device.py:69 | The assignment adds at most the key `id`. Other keys keep their records. An existing key is overwritten in place, and a new key is appended after the existing ones. |
| Records.BuildBatch | read_modbus_device.py:108-119 | One point per key of `datas`, with no key twice. Each point has measurement `energy`, the given device tag and time, and `fields` equal to the key's record. |
| Collector.ReadFrom | read_modbus_device.py:71-101 | The parameter loop reads parameters in order. It stops at the first parameter whose retry loop raises, and reports that parameter and the exception. Every parameter before the stop was read successfully. |
| Collector.ReadFromStopsAt | read_modbus_device.py:71-101 | If the parameters before `at` succeed and parameter `at` raises, the parameter loop stops at `at` with that exception. |
| Collector.ReadFromKeys | read_modbus_device.py:71-78 | After the parameter loop, the record's keys are the keys it had before plus the names read. |
| Collector.ReadFromValues | read_modbus_device.py:71-78 | After the parameter loop, each name read holds the registers of its last read. |
| Collector.ReadFromKeepsOthers | read_modbus_device.py:71-78 | Keys the parameter loop did not read keep what they held before. |
| Collector.ReadDevice | read_modbus_device.py:55-106 | ModbusError never escapes a device. A device is skipped without a record only on a ModbusError before its record was created. A partial record stops at a parameter whose read raised ModbusError. |
| Collector.CompleteRecord | read_modbus_device.py:69-103 | A device whose reads all succeed gets a record of exactly its parameter names plus `Read time`. Each name holds its registers and `Read time` holds the elapsed time. |
| Collector.PartialRecord | read_modbus_device.py:69-106 | A device interrupted by ModbusError at parameter `at` keeps a record of exactly the parameters before `at`, each with its registers, and no `Read time` entry of its own. |
| Collector.AllReadsComplete | read_modbus_device.py:58-103 | A device whose port opens, whose register file loads and whose reads all succeed completes its record. |
| Collector.ModbusErrorLeavesPartial | read_modbus_device.py:69-106 | When the parameters before `at` were read and the read of `at` raises ModbusError, the handler catches it. The device keeps a partial record that stops at `at`, and the loop goes on. |
| Collector.ModbusErrorBeforeRecordSkips | read_modbus_device.py:58-106 | A ModbusError from opening the port or loading the register file is caught before the record exists, so the device is skipped. |
| Collector.UncaughtBeforeRecordAborts | read_modbus_device.py:58-106 | Any other exception from opening the port or loading the register file leaves the device. |
| Collector.UncaughtReadAborts | read_modbus_device.py:71-106 | Any other exception from a parameter's retry loop, after the earlier parameters were read, leaves the device. |
| Collector.AbortedByAnOracle | read_modbus_device.py:58-101 | An exception leaving a device was raised by opening the port or by loading the register file, or it came from reading some parameter j after every earlier parameter was read. In the last case it is either the RuntimeError of j's ten retried failures, or the exception one of j's ten calls raised. |
| Cycle.DeviceLoop | read_modbus_device.py:55-106 | When the device loop completes, `datas` is a well-formed dict: its order lists every key exactly once. |
| Cycle.AbortIffSomeDeviceAborts | read_modbus_device.py:55-106 | The device loop is aborted exactly when some device raises past its ModbusError handler. |
| Cycle.FirstAbortEscapes | read_modbus_device.py:55-106 | The loop ends with the exception of the first device that raises past its handler. |
| Cycle.AbortComesFromADevice | read_modbus_device.py:55-106 | Any exception ending the loop is one some device raised. |
| Cycle.LoopKeys | read_modbus_device.py:55-69 | The keys of `datas` after the loop are the ids of the devices that created a record. |
| Cycle.RecordIdsHaveDevices | read_modbus_device.py:55-69 | Every id among the record ids belongs to a device that created a record. |
| Cycle.LoopKeyIff | read_modbus_device.py:55-69 | `datas` has a key for an id exactly when some device with that id created a record, so each id has at most one record. |
| Cycle.RecordOfLastDevice | read_modbus_device.py:55-69 | A repeated id keeps the record of the last device with that id that created one. |
| Cycle.LoopRecordsIff | read_modbus_device.py:55-69 | After a completed loop, `datas` is non-empty exactly when some device created a record. |
| Cycle.BatchPointsHaveDevices | read_modbus_device.py:108-119 | Every point belongs to a device id that created a record. |
| Cycle.BatchCoversDevices | read_modbus_device.py:108-119 | The last device with a given id that created a record has a point whose fields are that record. |
| Cycle.CollectAndStore | read_modbus_device.py:46-129 | The cache update of `get_devices` survives the cycle. A missing file raises AssertionError and a None map raises TypeError, before any read. `write_points` is called only with a non-empty batch of one timestamp, and only after every device was iterated. A write failure is re-raised. Before the write, ModbusError never ends the cycle. |
| Cycle.EmptyDeviceListStalls | read_modbus_device.py:35-55 | A reload that installs an empty `devices` entry and re-reads the same mtime makes every later cycle raise TypeError before any device is read, for as long as the mtime stays the same. |
| Cycle.DeviceAbortEndsCycle | read_modbus_device.py:55-106 | When devices before i stay within their handlers and device i raises past its handler, the cycle ends with device i's own exception, whatever its class, and writes nothing. |
| Cycle.NoRecordFinishes | read_modbus_device.py:55-129 | When no device aborts and none creates a record, the cycle writes nothing and returns normally. |
| Cycle.ExhaustedRetriesAbortCycle | read_modbus_device.py:81-105 | Suppose the devices before i do not abort and, on device i, the parameters before j succeed. If parameter j then fails ten times with retried classes, the cycle raises RuntimeError and writes nothing. |
| Cycle.WriteIffSomeRecord | read_modbus_device.py:105-129 | When no device raises past its handler, `write_points` is called exactly when some device created a record, complete or partial. |
| Cycle.WrittenIsBatchOf | read_modbus_device.py:108-122 | The written batch comes from a completed device loop over a non-empty device list. It is tagged with the last device's name. |
| Cycle.WrittenBatchTags | read_modbus_device.py:108-119 | Every written point has measurement `energy` and the cycle's timestamp. Every point's `device` tag is the name of the last device in the list, because the comprehension reads the leftover loop variable. No id has two points. |
| Cycle.WrittenBatchRecords | read_modbus_device.py:108-122 | The written batch has exactly the ids that got records. Each carries the record of the last device bearing that id. |
| Cycle.CycleFaultsAreExceptions | read_modbus_device.py:46-129 | If no oracle raises a BaseException outside `Exception`, neither does the cycle, so `repeat`'s handler catches whatever escapes it. |
| Scheduler.SleepFor | read_modbus_device.py:137-138 | With a positive interval, the sleep lies in (0, interval] and the wake-up lands on start + k·interval. |
| Scheduler.WakeIsNextGridPoint | read_modbus_device.py:135-138 | The wake-up is the first grid point strictly after the clock reading. |
| Scheduler.NoDrift | read_modbus_device.py:136-138 | If the next clock reading is not before the previous wake-up, the next wake-up is at least one interval later. Missed slots are skipped, not accumulated. |
| Scheduler.Repeat | read_modbus_device.py:132-146 | Each run follows a sleep on the grid, or no sleep when the interval is not positive. An Exception from the body never stops the loop, and only a BaseException outside `Exception` propagates. A falsy `max_iter` never returns. A truthy one returns after exactly `max_iter + 1` runs, or 1 run when it is negative. |

## Left out

- Serial port, `RtuMaster` construction and RTU framing (read_modbus_device.py:59-64): external I/O. Their outcome is the oracle `Env.connect`.
- YAML parsing, the register files, `path.exists` and `path.getmtime` (read_modbus_device.py:34-40, 68): filesystem I/O. They are the inputs `DeviceFile` and `Env.parameters`. The device file's entries are assumed well formed, so a missing `id` or `name` key (a KeyError) is not modelled.
- The InfluxDB client and `write_points` (read_modbus_device.py:122, 183-188): network I/O. They are the oracle `Env.write`.
- `time.time`, `datetime.utcnow` and `time.sleep`: clocks. They are integer ticks: `now`, `Env.elapsed` and `clock`. The sleep is assumed to last exactly as requested.
- Logging, including the `i % 1000` progress message, and the command-line block (read_modbus_device.py:149-195): process plumbing with no effect on state.
- The constructor's device listing (read_modbus_device.py:29-31) is logged and not modelled. The call to `get_devices` that feeds it is modelled as `DeviceMap.Construct`: a collector exists only once that first reload has installed a map that is not None. The key function of `sorted` is assumed not to raise on well-formed entries.
- `device_id_name` (read_modbus_device.py:53, 56): filled in but never read.
- Cycle.CollectAndStore: the oracle for `master.execute` is indexed by device position, parameter position and attempt, not by the request's arguments. The shape of each request is stated by `Reader.ReadParameter` rather than threaded through the cycle.
- Scheduler.Repeat: observes at most `horizon` runs, because with a falsy `max_iter` the source loops forever. The result `StillRunning` marks a run cut off by that bound.
