/** One device in `collect_and_store`: the body of `for device in devices`.
    It opens the port, loads the register file, runs the parameter loop through
    the retry loop, and applies the per-device ModbusError handler. Every
    external call is an oracle: its answers are fields of `Env`. */
module Collector {
  import opened Wrappers
  import opened Exceptions
  import opened Reader
  import opened Records

  /** One entry of a device's register file: parameter name to start address. */
  datatype Param = Param(name: string, address: int)

  /** The answers of the cycle's external calls, indexed by the position of the
      device in the device list and of the parameter in its register file. */
  datatype Env = Env(
    // building the RTU master and its serial port for device i (None: no exception)
    connect: nat -> Option<ExcKind>,
    // loading the register file named by device i's `type`
    parameters: nat -> Result<seq<Param>, ExcKind>,
    // the successive answers of `master.execute` for parameter j of device i
    execute: (nat, nat) -> Answers,
    // `time.time() - start_time` once device i's parameters are read
    elapsed: nat -> int,
    // `write_points` (None: no exception)
    write: Option<ExcKind>)

  /** The outcome of the retry loop for parameter m of device i. */
  function ReadAt(env: Env, i: nat, m: nat): ReadOutcome {
    Retry(env.execute(i, m)).outcome
  }

  /** The names of the parameters at positions lo..hi-1. */
  function NamesIn(ps: seq<Param>, lo: nat, hi: nat): (names: set<string>)
    requires lo <= hi <= |ps|
    ensures forall m :: lo <= m < hi ==> ps[m].name in names
    decreases hi - lo
  {
    if lo == hi then {} else {ps[lo].name} + NamesIn(ps, lo + 1, hi)
  }

  /** Every name in the range belongs to some parameter of the range. */
  lemma {:induction false} NamesInHasIndex(ps: seq<Param>, lo: nat, hi: nat, x: string)
    requires lo <= hi <= |ps|
    requires x in NamesIn(ps, lo, hi)
    ensures exists m :: lo <= m < hi && ps[m].name == x
    decreases hi - lo
  {
    if x != ps[lo].name {
      NamesInHasIndex(ps, lo + 1, hi, x);
    }
  }

  /** No parameter after position m and before `hi` has the same name, so the
      value read at m is the one the record keeps. */
  predicate LastOf(ps: seq<Param>, m: nat, hi: nat)
    requires m < hi <= |ps|
  {
    forall m' :: m < m' < hi ==> ps[m'].name != ps[m].name
  }

  datatype ParamsResult =
    | AllRead(rec: Record)
    | Stopped(rec: Record, at: nat, kind: ExcKind)  // the loop for parameter `at` raised

  /** The outcomes of the retry loops for the first n parameters of device i. */
  function Outcomes(env: Env, i: nat, n: nat): (outs: seq<ReadOutcome>)
    ensures |outs| == n && forall m :: 0 <= m < n ==> outs[m] == ReadAt(env, i, m)
  {
    seq(n, m requires 0 <= m => ReadAt(env, i, m))
  }

  /** The `for parameter in parameters` loop from position j on, storing each
      value into the record as it is read; `outs[m]` is what the retry loop for
      parameter m yields. The loop stops at the first parameter whose retry
      loop raises, and the outcomes after it are never looked at. */
  function ReadFrom(ps: seq<Param>, outs: seq<ReadOutcome>, j: nat, rec: Record): (r: ParamsResult)
    requires j <= |ps| == |outs|
    ensures j <= End(r, ps) <= |ps|
    ensures forall m :: j <= m < End(r, ps) ==> outs[m].Value?
    ensures r.Stopped? ==> r.at < |ps| && outs[r.at] == Raised(r.kind)
    decreases |ps| - j
  {
    if j == |ps| then AllRead(rec)
    else
      match outs[j]
      case Value(v) => ReadFrom(ps, outs, j + 1, rec[ps[j].name := Registers(v)])
      case Raised(e) => Stopped(rec, j, e)
  }

  /** Where the parameter loop ended: after the last parameter, or at the one that raised. */
  function End(r: ParamsResult, ps: seq<Param>): nat {
    if r.AllRead? then |ps| else r.at
  }

  /** The parameter loop stops exactly at the first parameter whose retry loop raises. */
  lemma ReadFromStopsAt(ps: seq<Param>, outs: seq<ReadOutcome>, j: nat, rec: Record, at: nat)
    requires j <= at < |ps| == |outs|
    requires forall m :: j <= m < at ==> outs[m].Value?
    requires outs[at].Raised?
    ensures ReadFrom(ps, outs, j, rec).Stopped?
    ensures ReadFrom(ps, outs, j, rec).at == at && ReadFrom(ps, outs, j, rec).kind == outs[at].kind
  {
  }

  /** The record the parameter loop leaves has the keys it had before plus
      the names read. */
  lemma {:induction false} ReadFromKeys(ps: seq<Param>, outs: seq<ReadOutcome>, j: nat, rec: Record)
    requires j <= |ps| == |outs|
    ensures var r := ReadFrom(ps, outs, j, rec);
      r.rec.Keys == rec.Keys + NamesIn(ps, j, End(r, ps))
    decreases |ps| - j
  {
    if j < |ps| && outs[j].Value? {
      ReadFromKeys(ps, outs, j + 1, rec[ps[j].name := Registers(outs[j].regs)]);
    }
  }

  /** Keys the parameter loop did not read keep what they held before. */
  lemma {:induction false} ReadFromKeepsOthers(ps: seq<Param>, outs: seq<ReadOutcome>, j: nat, rec: Record)
    requires j <= |ps| == |outs|
    ensures var r := ReadFrom(ps, outs, j, rec);
      forall x :: x in rec && x !in NamesIn(ps, j, End(r, ps)) ==> x in r.rec && r.rec[x] == rec[x]
    decreases |ps| - j
  {
    if j < |ps| && outs[j].Value? {
      ReadFromKeepsOthers(ps, outs, j + 1, rec[ps[j].name := Registers(outs[j].regs)]);
    }
  }

  /** The first parameter read keeps its value when no later parameter
      read before the loop ends has the same name. */
  lemma ReadFromFirstValue(ps: seq<Param>, outs: seq<ReadOutcome>, j: nat, rec: Record)
    requires j < |ps| == |outs| && outs[j].Value?
    requires var r := ReadFrom(ps, outs, j, rec); j < End(r, ps) && LastOf(ps, j, End(r, ps))
    ensures var r := ReadFrom(ps, outs, j, rec);
      ps[j].name in r.rec && r.rec[ps[j].name] == Registers(outs[j].regs)
  {
    var rec' := rec[ps[j].name := Registers(outs[j].regs)];
    var r := ReadFrom(ps, outs, j + 1, rec');
    assert ReadFrom(ps, outs, j, rec) == r;
    if ps[j].name in NamesIn(ps, j + 1, End(r, ps)) {
      NamesInHasIndex(ps, j + 1, End(r, ps), ps[j].name);
    }
    ReadFromKeepsOthers(ps, outs, j + 1, rec');
  }

  /** Each name the parameter loop read holds the value of its last read. */
  lemma {:induction false} ReadFromValues(ps: seq<Param>, outs: seq<ReadOutcome>, j: nat, rec: Record)
    requires j <= |ps| == |outs|
    ensures var r := ReadFrom(ps, outs, j, rec);
      forall m :: j <= m < End(r, ps) && LastOf(ps, m, End(r, ps)) ==>
        ps[m].name in r.rec && r.rec[ps[m].name] == Registers(outs[m].regs)
    decreases |ps| - j
  {
    if j < |ps| && outs[j].Value? {
      var rec' := rec[ps[j].name := Registers(outs[j].regs)];
      ReadFromValues(ps, outs, j + 1, rec');
      assert ReadFrom(ps, outs, j, rec) == ReadFrom(ps, outs, j + 1, rec');
      if LastOf(ps, j, End(ReadFrom(ps, outs, j, rec), ps)) {
        ReadFromFirstValue(ps, outs, j, rec);
      }
    }
  }

  /** What one iteration of `for device in devices` leaves behind. */
  datatype DeviceStep =
    | Skipped                         // ModbusError before the record was created
    | Complete(rec: Record)           // every parameter read, `'Read time'` stored
    | Partial(rec: Record, at: nat)   // ModbusError while reading parameter `at`
    | Aborted(kind: ExcKind)          // an exception the per-device handler does not catch
  {
    predicate HasRecord() { Complete? || Partial? }
  }

  /** The per-device `except modbus_tk.modbus.ModbusError` handler. */
  function Handle(e: ExcKind, caught: DeviceStep): DeviceStep {
    if e == ModbusError then caught else Aborted(e)
  }

  /** The body of `for device in devices` for the device at position i. */
  function ReadDevice(env: Env, i: nat): (s: DeviceStep)
    // ModbusError never leaves the device's handler
    ensures s.Aborted? ==> s.kind != ModbusError
    // a device is skipped without a record only by a ModbusError before its record existed
    ensures s.Skipped? ==>
      env.connect(i) == Some(ModbusError)
      || (env.connect(i).None? && env.parameters(i) == Failure(ModbusError))
    ensures s.HasRecord() ==> env.connect(i).None? && env.parameters(i).Success?
    // a partial record stops at a parameter whose read raised ModbusError
    ensures s.Partial? ==>
      s.at < |env.parameters(i).value| && ReadAt(env, i, s.at) == Raised(ModbusError)
  {
    match env.connect(i)
    case Some(e) => Handle(e, Skipped)
    case None =>
      match env.parameters(i)
      case Failure(e) => Handle(e, Skipped)
      case Success(ps) =>
        match ReadFrom(ps, Outcomes(env, i, |ps|), 0, map[])
        case AllRead(rec) => Complete(rec[ReadTimeKey := Seconds(env.elapsed(i))])
        case Stopped(rec, at, e) => Handle(e, Partial(rec, at))
  }

  /** A device whose reads all succeed gets a record of exactly its parameter
      names plus `'Read time'`, each name holding the value of its read. */
  lemma CompleteRecord(env: Env, i: nat)
    requires ReadDevice(env, i).Complete?
    ensures var ps := env.parameters(i).value; var rec := ReadDevice(env, i).rec;
      && (forall m :: 0 <= m < |ps| ==> ReadAt(env, i, m).Value?)
      && rec.Keys == NamesIn(ps, 0, |ps|) + {ReadTimeKey}
      && rec[ReadTimeKey] == Seconds(env.elapsed(i))
      && forall m :: 0 <= m < |ps| && LastOf(ps, m, |ps|) && ps[m].name != ReadTimeKey ==>
           rec[ps[m].name] == Registers(ReadAt(env, i, m).regs)
  {
    var ps := env.parameters(i).value;
    var outs := Outcomes(env, i, |ps|);
    ReadFromKeys(ps, outs, 0, map[]);
    ReadFromValues(ps, outs, 0, map[]);
  }

  /** A device interrupted by ModbusError keeps the record of the parameters
      read before it, and no `'Read time'` unless a parameter bears that name. */
  lemma PartialRecord(env: Env, i: nat)
    requires ReadDevice(env, i).Partial?
    ensures var ps := env.parameters(i).value; var s := ReadDevice(env, i);
      && s.rec.Keys == NamesIn(ps, 0, s.at)
      && (forall m :: 0 <= m < s.at ==> ReadAt(env, i, m).Value?)
      && forall m :: 0 <= m < s.at && LastOf(ps, m, s.at) ==>
           s.rec[ps[m].name] == Registers(ReadAt(env, i, m).regs)
  {
    var ps := env.parameters(i).value;
    var outs := Outcomes(env, i, |ps|);
    ReadFromKeys(ps, outs, 0, map[]);
    ReadFromValues(ps, outs, 0, map[]);
  }

  function RecordOf(s: DeviceStep): Record
    requires s.HasRecord()
  {
    s.rec
  }

  /** A device whose port opens, whose register file loads and whose reads
      all succeed completes its record. */
  lemma AllReadsComplete(env: Env, i: nat, ps: seq<Param>)
    requires env.connect(i).None? && env.parameters(i) == Success(ps)
    requires forall m :: 0 <= m < |ps| ==> ReadAt(env, i, m).Value?
    ensures ReadDevice(env, i).Complete?
  {
  }

  /** A ModbusError from the read of parameter `at`, after the parameters
      before it were read, is caught: the device keeps a partial record that
      stops at `at`, and the loop goes on with the next device. */
  lemma ModbusErrorLeavesPartial(env: Env, i: nat, ps: seq<Param>, at: nat)
    requires env.connect(i).None? && env.parameters(i) == Success(ps)
    requires at < |ps|
    requires forall m :: 0 <= m < at ==> ReadAt(env, i, m).Value?
    requires ReadAt(env, i, at) == Raised(ModbusError)
    ensures ReadDevice(env, i).Partial? && ReadDevice(env, i).at == at
  {
    ReadFromStopsAt(ps, Outcomes(env, i, |ps|), 0, map[], at);
  }

  /** A ModbusError from opening the port or loading the register file is
      caught before the device's record exists: the device is skipped. */
  lemma ModbusErrorBeforeRecordSkips(env: Env, i: nat)
    requires || env.connect(i) == Some(ModbusError)
             || (env.connect(i).None? && env.parameters(i) == Failure(ModbusError))
    ensures ReadDevice(env, i) == Skipped
  {
  }

  /** Any other exception from opening the port or loading the register file
      leaves the device, and with it the device loop. */
  lemma UncaughtBeforeRecordAborts(env: Env, i: nat, e: ExcKind)
    requires e != ModbusError
    requires || env.connect(i) == Some(e)
             || (env.connect(i).None? && env.parameters(i) == Failure(e))
    ensures ReadDevice(env, i) == Aborted(e)
  {
  }

  /** Any other exception leaving the retry loop of a parameter, after the
      parameters before it were read, leaves the device too. */
  lemma UncaughtReadAborts(env: Env, i: nat, ps: seq<Param>, at: nat, e: ExcKind)
    requires e != ModbusError
    requires env.connect(i).None? && env.parameters(i) == Success(ps)
    requires at < |ps|
    requires forall m :: 0 <= m < at ==> ReadAt(env, i, m).Value?
    requires ReadAt(env, i, at) == Raised(e)
    ensures ReadDevice(env, i) == Aborted(e)
  {
    ReadFromStopsAt(ps, Outcomes(env, i, |ps|), 0, map[], at);
  }

  /** A device that raises past its handler while reading stopped at a
      parameter whose retry loop raised that exception, after every earlier
      parameter was read. */
  lemma AbortedReadStopsAt(env: Env, i: nat) returns (j: nat)
    requires ReadDevice(env, i).Aborted?
    requires env.connect(i).None? && env.parameters(i).Success?
    ensures j < |env.parameters(i).value|
    ensures forall m :: 0 <= m < j ==> ReadAt(env, i, m).Value?
    ensures ReadAt(env, i, j) == Raised(ReadDevice(env, i).kind)
  {
    var ps := env.parameters(i).value;
    var outs := Outcomes(env, i, |ps|);
    j := ReadFrom(ps, outs, 0, map[]).at;
    assert forall m :: 0 <= m < j ==> outs[m].Value?;
  }

  /** An exception that leaves a device was raised by opening its port, by
      loading its register file, or by reading a parameter after every earlier
      parameter was read; in the last case it is the RuntimeError of that
      parameter's ten retried failures, or the exception one of its calls raised. */
  lemma AbortedByAnOracle(env: Env, i: nat)
    requires ReadDevice(env, i).Aborted?
    ensures var e := ReadDevice(env, i).kind;
      || env.connect(i) == Some(e)
      || (env.connect(i).None? && env.parameters(i) == Failure(e))
      || (&& env.connect(i).None? && env.parameters(i).Success?
          && exists j :: 0 <= j < |env.parameters(i).value|
               && (forall m :: 0 <= m < j ==> ReadAt(env, i, m).Value?)
               && ((e == RuntimeError && Exhausted(env.execute(i, j)))
                   || exists k :: 0 <= k < MaxAttempts && env.execute(i, j)(k) == Fail(e)))
  {
    if env.connect(i).None? && env.parameters(i).Success? {
      var j := AbortedReadStopsAt(env, i);
      RaisedByExhaustionOrCall(env.execute(i, j));
    }
  }
}
