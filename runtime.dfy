/**
 * The parts of the JVM runtime that the two core classes only observe or
 * append to: the `Jvm.warn()` / `Jvm.error()` logs and the interrupt flag of
 * the calling thread.
 */
module Runtime {
  import opened Wrappers

  /** One call of `Jvm.warn().on(origin, message)` or `Jvm.error().on(origin, message, cause)`. */
  datatype LogEntry = LogEntry(origin: string, message: string, cause: Option<string>)

  /** The process log; every logging call appends one entry to one of the two streams. */
  class Log {
    var warnings: seq<LogEntry>
    var errors: seq<LogEntry>

    constructor ()
      ensures warnings == [] && errors == []
    {
      warnings := [];
      errors := [];
    }
  }

  /** The thread that calls into the core; only its interrupt flag is observed. */
  class CurrentThread {
    var interrupted: bool

    constructor (interrupted: bool)
      ensures this.interrupted == interrupted
    {
      this.interrupted := interrupted;
    }

    /** `Thread.currentThread().interrupt()`: sets the flag, idempotently. */
    method Interrupt()
      modifies this
      ensures interrupted
    {
      interrupted := true;
    }
  }
}
