/** The per-parameter retry loop of `collect_and_store`: up to ten calls of
    `master.execute`, each reading two holding registers; a success ends the
    loop, ValueError, TypeError and IOError are retried, anything else is
    re-raised at once, and running out of attempts raises RuntimeError. */
module Reader {
  import opened Exceptions

  /** `retries = 10`: the number of `master.execute` calls one parameter may use. */
  const MaxAttempts: nat := 10

  /** `cst.READ_HOLDING_REGISTERS`, Modbus function code 3. */
  const ReadHoldingRegisters: int := 3

  /** Every read asks for two registers. */
  const RegistersPerRead: int := 2

  /** What one `master.execute` call does: return the register values or raise. */
  datatype Attempt = Answer(regs: seq<int>) | Fail(kind: ExcKind)

  /** The answers successive calls would get: `answer(k)` is the (k+1)-th call's. */
  type Answers = nat -> Attempt

  /** The arguments of one `master.execute` call. */
  datatype Request = Request(slave: int, code: int, start: int, quantity: int)

  /** The loop's outcome: the registers read, or the exception leaving the loop. */
  datatype ReadOutcome = Value(regs: seq<int>) | Raised(kind: ExcKind)

  datatype RetryResult = RetryResult(outcome: ReadOutcome, attempts: nat)

  predicate RetryableFailure(a: Attempt) {
    a.Fail? && IsRetryable(a.kind)
  }

  /** How the last attempt of a run of `attempts` calls determines the outcome. */
  predicate Decides(last: Attempt, attempts: nat, outcome: ReadOutcome) {
    match last
    case Answer(v) => outcome == Value(v)
    case Fail(e) =>
      if IsRetryable(e) then attempts == MaxAttempts && outcome == Raised(RuntimeError)
      else outcome == Raised(e)
  }

  /** The loop's behaviour from attempt `k` on (attempts are counted from 0). */
  function RetryFrom(answer: Answers, k: nat): (r: RetryResult)
    requires k < MaxAttempts
    ensures k < r.attempts <= MaxAttempts
    ensures forall n :: k <= n < r.attempts - 1 ==> RetryableFailure(answer(n))
    ensures Decides(answer(r.attempts - 1), r.attempts, r.outcome)
    decreases MaxAttempts - k
  {
    match answer(k)
    case Answer(v) => RetryResult(Value(v), k + 1)
    case Fail(e) =>
      if !IsRetryable(e) then RetryResult(Raised(e), k + 1)
      else if k + 1 == MaxAttempts then RetryResult(Raised(RuntimeError), MaxAttempts)
      else RetryFrom(answer, k + 1)
  }

  /** The outcome and the number of calls for one parameter. */
  function Retry(answer: Answers): (r: RetryResult)
    ensures 1 <= r.attempts <= MaxAttempts
    // every call before the last failed with a retried class
    ensures forall n :: 0 <= n < r.attempts - 1 ==> RetryableFailure(answer(n))
    // the last call decides: success, immediate re-raise, or exhaustion
    ensures Decides(answer(r.attempts - 1), r.attempts, r.outcome)
  {
    RetryFrom(answer, 0)
  }

  /** The first call that does not fail with a retried class is the last call. */
  lemma StopsAtFirstDecisive(answer: Answers, n: nat)
    requires n < MaxAttempts
    requires forall m :: 0 <= m < n ==> RetryableFailure(answer(m))
    requires !RetryableFailure(answer(n))
    ensures Retry(answer).attempts == n + 1
    ensures answer(n).Answer? ==> Retry(answer).outcome == Value(answer(n).regs)
    ensures answer(n).Fail? ==> Retry(answer).outcome == Raised(answer(n).kind)
  {
  }

  /** Ten failures of retried classes raise RuntimeError after exactly ten calls. */
  lemma ExhaustionRaisesRuntimeError(answer: Answers)
    requires forall m :: 0 <= m < MaxAttempts ==> RetryableFailure(answer(m))
    ensures Retry(answer) == RetryResult(Raised(RuntimeError), MaxAttempts)
  {
  }

  /** An exception raised by the loop is RuntimeError or was raised by a call. */
  lemma RaisedComesFromACall(answer: Answers)
    requires Retry(answer).outcome.Raised?
    ensures var r := Retry(answer);
      r.outcome.kind == RuntimeError || answer(r.attempts - 1) == Fail(r.outcome.kind)
  {
  }

  /** All ten calls for one parameter failed with a retried class. */
  ghost predicate Exhausted(answer: Answers) {
    forall k :: 0 <= k < MaxAttempts ==> RetryableFailure(answer(k))
  }

  /** An exception leaving the loop is the RuntimeError of ten retried
      failures, or the exception one of the ten calls raised. */
  lemma RaisedByExhaustionOrCall(answer: Answers)
    requires Retry(answer).outcome.Raised?
    ensures var e := Retry(answer).outcome.kind;
      || (e == RuntimeError && Exhausted(answer))
      || exists k :: 0 <= k < MaxAttempts && answer(k) == Fail(e)
  {
  }

  /** The loop itself, with the counter decremented before each call as in the
      source. `calls` lists the calls made. */
  method ReadParameter(slave: int, address: int, answer: Answers)
    returns (outcome: ReadOutcome, calls: seq<Request>)
    ensures RetryResult(outcome, |calls|) == Retry(answer)
    ensures forall c <- calls :: c == Request(slave, ReadHoldingRegisters, address, RegistersPerRead)
  {
    var retries := MaxAttempts;
    calls := [];
    outcome := Raised(RuntimeError);
    while retries > 0
      invariant 0 <= retries <= MaxAttempts
      invariant |calls| <= MaxAttempts
      invariant retries > 0 ==> |calls| == MaxAttempts - retries
      invariant forall c <- calls :: c == Request(slave, ReadHoldingRegisters, address, RegistersPerRead)
      invariant retries > 0 ==> forall m :: 0 <= m < |calls| ==> RetryableFailure(answer(m))
      invariant retries == 0 ==> RetryResult(outcome, |calls|) == Retry(answer)
      decreases retries
    {
      retries := retries - 1;
      var n := |calls|;
      calls := calls + [Request(slave, ReadHoldingRegisters, address, RegistersPerRead)];
      match answer(n)
      case Answer(v) =>
        StopsAtFirstDecisive(answer, n);
        outcome := Value(v);
        retries := 0;
      case Fail(e) =>
        if !IsRetryable(e) {
          StopsAtFirstDecisive(answer, n);
          outcome := Raised(e);
          return;
        }
        if retries == 0 {
          ExhaustionRaisesRuntimeError(answer);
          outcome := Raised(RuntimeError);
          return;
        }
    }
  }
}
