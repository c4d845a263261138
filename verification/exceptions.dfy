/** The exception classes the poll cycle tells apart. Every external call of the
    cycle is an oracle that answers with a value or with one of these kinds. */
module Exceptions {

  datatype ExcKind =
    | ValueError       // retried by the per-parameter loop
    | TypeError        // retried by the per-parameter loop; also iterating a None device map
    | IOError          // retried by the per-parameter loop (OSError, serial port errors)
    | ModbusError      // modbus_tk's protocol-level error, caught once per device
    | RuntimeError     // raised when a parameter runs out of attempts
    | AssertionError   // the device file does not exist
    | OtherException   // any other subclass of Exception
    | Interrupt        // a BaseException outside Exception (KeyboardInterrupt, SystemExit)

  /** The three classes the retry loop catches and retries. */
  predicate IsRetryable(k: ExcKind) {
    k.ValueError? || k.TypeError? || k.IOError?
  }

  /** Whether `except Exception` catches the kind. */
  predicate IsException(k: ExcKind) {
    !k.Interrupt?
  }
}
