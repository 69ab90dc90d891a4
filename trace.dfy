/** The result and argument helpers of the SDK's internal logging header:
    the `Trace*` pass-through functions, the bool-to-result conversion, the
    early-return argument and handle checks, and the default logger
    configuration.  The message each helper sends to the logger is modelled
    by the level it would be logged at; the logger itself is the Logging
    module. */
module Trace {
  import opened K4aTypes

  /** What a trace helper hands back: the result it was given and the level
      of the message it logs, if it logs one. */
  datatype Traced<T> = Traced(result: T, logged: Option<int>)

  /** TraceError: passes `result` through and logs an error iff it is a failure. */
  function TraceError(result: K4aResult): (t: Traced<K4aResult>)
    ensures t.result == result
    ensures t.logged.Some? <==> result == Failed
    ensures t.logged.Some? ==> t.logged.value == LogError
  {
    if result == Failed then Traced(result, Some(LogError)) else Traced(result, None)
  }

  /** TraceBufferError: passes `result` through and logs an error iff it is
      K4A_BUFFER_RESULT_FAILED (a too-small buffer is not an error). */
  function TraceBufferError(result: BufferResult): (t: Traced<BufferResult>)
    ensures t.result == result
    ensures t.logged.Some? <==> result == BufferFailed
    ensures t.logged.Some? ==> t.logged.value == LogError
  {
    if result == BufferFailed then Traced(result, Some(LogError)) else Traced(result, None)
  }

  /** TraceWaitError: passes `result` through and logs an error iff it is
      K4A_WAIT_RESULT_FAILED (a timeout is not an error). */
  function TraceWaitError(result: WaitResult): (t: Traced<WaitResult>)
    ensures t.result == result
    ensures t.logged.Some? <==> result == WaitFailed
    ensures t.logged.Some? ==> t.logged.value == LogError
  {
    if result == WaitFailed then Traced(result, Some(LogError)) else Traced(result, None)
  }

  /** TraceReturn: passes `result` through; a failure is logged as an error,
      a success as a trace message. */
  function TraceReturn(result: K4aResult): (t: Traced<K4aResult>)
    ensures t.result == result
    ensures result == Failed ==> t.logged == Some(LogError)
    ensures result == Succeeded ==> t.logged == Some(LogTrace)
  {
    if result == Failed then Traced(result, Some(LogError)) else Traced(result, Some(LogTrace))
  }

  /** K4A_RESULT_FROM_BOOL */
  function ResultFromBool(b: bool): (r: K4aResult)
    ensures r == Succeeded <==> b
    ensures r == Failed <==> !b
  {
    TraceError(if b then Succeeded else Failed).result
  }

  /** RETURN_VALUE_IF_ARG: `Some(failValue)` means the enclosing function
      returns `failValue` at once; `None` means execution falls through. */
  function ReturnValueIfArg<T>(failValue: T, expression: bool): (r: Option<T>)
    ensures r.Some? <==> expression
    ensures r.Some? ==> r.value == failValue
  {
    if expression then Some(failValue) else None
  }

  /** RETURN_VALUE_IF_HANDLE_INVALID: `contextLookup` is what the handle's
      `_get_context` returns (None for NULL); the check returns early iff the
      lookup is NULL. */
  function ReturnValueIfHandleInvalid<T, C>(failValue: T, contextLookup: Option<C>): (r: Option<T>)
    ensures r.Some? <==> contextLookup.None?
    ensures r.Some? ==> r.value == failValue
  {
    ReturnValueIfArg(failValue, contextLookup.None?)
  }

  const EnvLogToAFile: string := "K4A_ENABLE_LOG_TO_A_FILE"
  const EnvLogToStdout: string := "K4A_ENABLE_LOG_TO_STDOUT"
  const EnvLogLevel: string := "K4A_LOG_LEVEL"
  const LogFile50MbMaxSize: int := 1048576 * 50

  /** logger_config_t: names of the three environment variables, the default
      log file and the rollover size.  A NULL pointer is None. */
  class LoggerConfig {
    var envVarLogToAFile: Option<string>
    var envVarLogToStdout: Option<string>
    var envVarLogLevel: Option<string>
    var logFile: Option<string>
    var maxLogSize: int

    /** A zero-filled configuration, as after `memset(config, 0, ...)`. */
    constructor Zeroed()
      ensures envVarLogToAFile.None? && envVarLogToStdout.None? && envVarLogLevel.None?
      ensures logFile.None? && maxLogSize == 0
    {
      envVarLogToAFile, envVarLogToStdout, envVarLogLevel := None, None, None;
      logFile, maxLogSize := None, 0;
    }

    /** logger_config_init_default: fills the structure in place. */
    method InitDefault()
      modifies this
      ensures envVarLogToAFile == Some(EnvLogToAFile)
      ensures envVarLogToStdout == Some(EnvLogToStdout)
      ensures envVarLogLevel == Some(EnvLogLevel)
      ensures logFile.None?
      ensures maxLogSize == 50 * 1048576 && maxLogSize > 0
    {
      envVarLogToAFile, envVarLogToStdout, envVarLogLevel := None, None, None;
      logFile, maxLogSize := None, 0;
      envVarLogToAFile := Some(EnvLogToAFile);
      envVarLogToStdout := Some(EnvLogToStdout);
      envVarLogLevel := Some(EnvLogLevel);
      logFile := None;
      maxLogSize := LogFile50MbMaxSize;
    }
  }
}
