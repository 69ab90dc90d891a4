/** The SDK's logger.  It has two outputs with separate lifetimes: a user
    message callback, registered and cleared by the application, and an
    environment logger (a rotating log file or stdout) that lives while at
    least one logger handle exists and is configured from environment
    variables when the first handle is created.

    The process-wide state of the logger is one `LoggerState` object.  The
    environment is a map from variable name to value; a value is the
    characters before its terminating NUL.  A callback is identified by an
    integer (its function pointer) and a message by its text after
    formatting.  Every message the logger hands on is recorded, in order,
    in `delivered`. */
module Logging {
  import opened K4aTypes
  import opened Trace

  /** The environment logger's sink: spdlog's rotating file logger with its
      rollover size and file count, or the stdout logger. */
  datatype EnvSink = FileSink(path: string, maxSize: int, maxFiles: nat) | StdoutSink

  /** The spdlog levels the environment logger writes at. */
  datatype SpdLevel = SpdCritical | SpdError | SpdWarn | SpdInfo | SpdTrace

  /** A registered message callback and its context. */
  datatype CallbackInfo = CallbackInfo(callback: int, context: int)

  /** A message handed on: to the user callback with its level, or to the
      environment logger at an spdlog level. */
  datatype LogDelivery =
    | ToCallback(info: CallbackInfo, level: int, text: string)
    | ToSink(sink: EnvSink, spdLevel: SpdLevel, text: string)

  // LOG_FILE_MAX_FILES
  const LogFileMaxFiles: nat := 3
  // LOG_FILE_EXTENSION
  const LogFileExtension: string := ".log"
  // size of the formatting buffer of logger_log, terminating NUL included
  const MessageBufferSize: nat := 1024
  // the banner a new file logger writes first
  const SessionBanner: string := "\n\nNew logging session started\n"

  /** environment_get_variable for a configured variable name; None when the
      name is NULL or the variable is not set. */
  function EnvValue(env: map<string, string>, name: Option<string>): (v: Option<string>)
    ensures v.Some? <==> name.Some? && name.value in env
    ensures v.Some? ==> v.value == env[name.value]
  {
    if name.Some? && name.value in env then Some(env[name.value]) else None
  }

  /** The environment level logger_create sets: ERROR, unless the level
      variable's first character names another level. */
  function ParseLogLevel(value: Option<string>): (level: int)
    ensures LogCritical <= level <= LogTrace
    ensures level == LogTrace <==> value.Some? && FirstChar(value.value) in {'t', 'T'}
    ensures level == LogInfo <==> value.Some? && FirstChar(value.value) in {'i', 'I'}
    ensures level == LogWarning <==> value.Some? && FirstChar(value.value) in {'w', 'W'}
    ensures level == LogCritical <==> value.Some? && FirstChar(value.value) in {'c', 'C'}
  {
    var level := LogError;
    if value.None? || FirstChar(value.value) == '\0' then level
    else
      var c := FirstChar(value.value);
      if c == 't' || c == 'T' then LogTrace
      else if c == 'i' || c == 'I' then LogInfo
      else if c == 'w' || c == 'W' then LogWarning
      else if c == 'e' || c == 'E' then LogError
      else if c == 'c' || c == 'C' then LogCritical
      else level
  }

  /** An unset, empty or unrecognised level value leaves the default ERROR,
      and the environment logger is never left OFF. */
  lemma LevelDefaultsToError(value: Option<string>)
    ensures value.None? || |value.value| == 0 ==> ParseLogLevel(value) == LogError
    ensures value.Some? && |value.value| > 0 && value.value[0] !in {'t', 'T', 'i', 'I', 'w', 'W', 'c', 'C'} ==>
              ParseLogLevel(value) == LogError
    ensures ParseLogLevel(value) != LogOff
  {
  }

  /** `s` ends in ".log" with at least one character before it. */
  predicate IsLogPath(s: string)
  {
    |s| > |LogFileExtension| && s[|s| - |LogFileExtension|..] == LogFileExtension
  }

  /** The file logger's path: none unless the file variable is set, non-empty
      and does not start with '0'; then the variable itself when it names a
      ".log" file, else the configured log file (which may be NULL). */
  function FileLogTarget(fileEnv: Option<string>, configLogFile: Option<string>): Option<string>
  {
    if fileEnv.None? || FirstChar(fileEnv.value) == '\0' then None
    else if FirstChar(fileEnv.value) == '0' then None
    else if IsLogPath(fileEnv.value) then Some(fileEnv.value)
    else configLogFile
  }

  /** What the file-variable rules come to: a ".log" value is the path, any
      other enabling value falls back to the configured file, and an unset,
      empty or '0' value disables file logging. */
  lemma FileLogTargetRule(fileEnv: Option<string>, configLogFile: Option<string>)
    ensures fileEnv.None? || |fileEnv.value| == 0 || fileEnv.value[0] == '0' ==>
              FileLogTarget(fileEnv, configLogFile).None?
    ensures fileEnv.Some? && IsLogPath(fileEnv.value) && fileEnv.value[0] != '0' && fileEnv.value[0] != '\0' ==>
              FileLogTarget(fileEnv, configLogFile) == fileEnv
    ensures (fileEnv.Some? && |fileEnv.value| > 0 && fileEnv.value[0] != '0' && fileEnv.value[0] != '\0' &&
             !IsLogPath(fileEnv.value)) ==> FileLogTarget(fileEnv, configLogFile) == configLogFile
    ensures FileLogTarget(fileEnv, configLogFile).Some? ==>
              FileLogTarget(fileEnv, configLogFile) == fileEnv || FileLogTarget(fileEnv, configLogFile) == configLogFile
  {
  }

  /** The outcome of the code's suffix test: the path it picks, or a read
      before the start of the value. */
  datatype SuffixCheck = Picked(file: Option<string>) | ReadsBeforeValue

  /** The offset of the suffix test as the code computes it: the length
      plus one, less the extension's size with its NUL, truncated to `char`. */
  function AsWrittenSuffixOffset(len: nat): int
  {
    ToInt8(ToUint32(len + 1) - (|LogFileExtension| + 1))
  }

  /** The suffix test as written, for an enabling file variable `s`: when
      the length plus one exceeds five, compare the string at the truncated
      offset with ".log" up to and including the NUL. */
  function AsWrittenLogFile(s: string, configLogFile: Option<string>): SuffixCheck
    requires |s| + 1 < TwoTo32
  {
    if ToUint32(|s| + 1) > |LogFileExtension| + 1 then
      var offset := AsWrittenSuffixOffset(|s|);
      if offset < 0 then ReadsBeforeValue
      else if offset <= |s| && s[offset..] == LogFileExtension then Picked(Some(s))
      else Picked(configLogFile)
    else Picked(configLogFile)
  }

  /** For values of at most 131 characters the truncation is harmless and
      the code picks what the corrected rule picks. */
  lemma AsWrittenAgreesForShortValues(s: string, configLogFile: Option<string>)
    requires |s| <= 131 && |s| > 0 && s[0] != '0' && s[0] != '\0'
    ensures AsWrittenLogFile(s, configLogFile) == Picked(FileLogTarget(Some(s), configLogFile))
  {
    if |s| > 4 {
      assert AsWrittenSuffixOffset(|s|) == |s| - 4;
    }
  }

  /** A 132-character ".log" path: the offset 128 becomes -128 as a `char`,
      and the comparison reads before the value. */
  lemma AsWrittenLogFileReadsBeforeValue()
    ensures var s := seq(128, i => 'a') + LogFileExtension;
            && FileLogTarget(Some(s), None) == Some(s)
            && AsWrittenLogFile(s, None) == ReadsBeforeValue
  {
    var s := seq(128, i => 'a') + LogFileExtension;
    assert s[|s| - 4..] == LogFileExtension;
    assert AsWrittenSuffixOffset(|s|) == -128;
  }

  /** A 300-character ".log" path: the offset 296 becomes 40, the comparison
      fails, and the configured file is used instead of the path. */
  lemma AsWrittenLogFileIgnoresLongPath()
    ensures var s := seq(296, i => 'a') + LogFileExtension;
            && FileLogTarget(Some(s), Some("k4a.log")) == Some(s)
            && AsWrittenLogFile(s, Some("k4a.log")) == Picked(Some("k4a.log"))
  {
    var s := seq(296, i => 'a') + LogFileExtension;
    assert s[|s| - 4..] == LogFileExtension;
    assert AsWrittenSuffixOffset(|s|) == 40;
    assert |s[40..]| != |LogFileExtension|;
  }

  /** The stdout decision of logger_create, made only when no file logger
      was created: stdout is on when the stdout variable is set and does not
      start with '0', or when no callback is registered and the variable is
      unset or empty. */
  function StdoutEnabled(stdoutEnv: Option<string>, callbackRegistered: bool): bool
  {
    if stdoutEnv.Some? && FirstChar(stdoutEnv.value) != '0' then true
    else if !callbackRegistered then
      // the remaining disjuncts of the source's second test, once the first
      // test has failed
      stdoutEnv.None? || FirstChar(stdoutEnv.value) == '\0'
    else false
  }

  /** The stdout rule in short: an explicit value decides by its first
      character, and an unset variable means stdout exactly when no callback
      is registered. */
  lemma StdoutRule(stdoutEnv: Option<string>, callbackRegistered: bool)
    ensures stdoutEnv.Some? ==> (StdoutEnabled(stdoutEnv, callbackRegistered) <==> FirstChar(stdoutEnv.value) != '0')
    ensures stdoutEnv.None? ==> (StdoutEnabled(stdoutEnv, callbackRegistered) <==> !callbackRegistered)
  {
  }

  /** Whether a message at `level` passes a threshold: the threshold is not
      OFF and the level is at least as severe. */
  predicate Passes(level: int, threshold: int)
  {
    level <= threshold && threshold != LogOff
  }

  /** The quick exit of logger_log loses nothing: a message above both
      thresholds passes neither. */
  lemma QuickExitIsSound(level: int, envLevel: int, userLevel: int)
    ensures level > envLevel && level > userLevel ==> !Passes(level, envLevel) && !Passes(level, userLevel)
    ensures Passes(level, envLevel) || Passes(level, userLevel) ==> level <= envLevel || level <= userLevel
  {
  }

  /** A threshold passes exactly the levels at least as severe as itself,
      and OFF passes nothing. */
  lemma ThresholdMeaning(threshold: int)
    requires LogCritical <= threshold <= LogOff
    ensures forall level :: LogCritical <= level <= LogTrace ==> (Passes(level, threshold) <==> level <= threshold && threshold != LogOff)
    ensures threshold == LogOff ==> forall level :: !Passes(level, threshold)
    ensures threshold == LogTrace ==> forall level :: LogCritical <= level <= LogTrace ==> Passes(level, threshold)
  {
  }

  /** The spdlog call logger_log makes for a level; anything other than the
      four named levels is logged as trace. */
  function SpdLevelOf(level: int): (s: SpdLevel)
    ensures s == SpdCritical <==> level == LogCritical
    ensures s == SpdError <==> level == LogError
    ensures s == SpdWarn <==> level == LogWarning
    ensures s == SpdInfo <==> level == LogInfo
  {
    if level == LogCritical then SpdCritical
    else if level == LogError then SpdError
    else if level == LogWarning then SpdWarn
    else if level == LogInfo then SpdInfo
    else SpdTrace
  }

  /** The text vsnprintf leaves in the 1024-byte buffer: the formatted
      message cut to 1023 characters. */
  function Formatted(text: string): (r: string)
    ensures |r| < MessageBufferSize && |r| <= |text|
    ensures r == text[..|r|]
    ensures |text| < MessageBufferSize ==> r == text
  {
    if |text| < MessageBufferSize then text else text[..MessageBufferSize - 1]
  }

  /** The process-wide state of the logger. */
  class LoggerState {
    // g_user_logger_cb_info, g_user_logger_cb_info_ref, g_user_log_level
    var userCallback: Option<CallbackInfo>
    var userRef: int
    var userLevel: int
    // g_env_logger, g_env_logger_count, g_env_logger_is_file_based, g_env_log_level
    var envLogger: Option<EnvSink>
    var envCount: int
    var envIsFileBased: bool
    var envLevel: int
    // the logger of each live handle, and the next handle to hand out
    var handles: map<nat, Option<EnvSink>>
    var nextHandle: nat
    var delivered: seq<LogDelivery>

    ghost predicate Valid()
      reads this
    {
      // the callback's reference count is held by the registration alone
      && userRef == (if userCallback.Some? then 1 else 0)
      && LogCritical <= userLevel <= LogOff
      && (userCallback.None? ==> userLevel == LogOff)
      // one count per live handle, and every handle shares the one env logger
      && envCount == |handles|
      && (forall h :: h in handles ==> h < nextHandle && handles[h] == envLogger)
      && (envCount == 0 ==> envLogger.None?)
      && (envIsFileBased <==> envLogger.Some? && envLogger.value.FileSink?)
      && (envLogger.None? ==> envLevel == LogOff)
      && (envLogger.Some? ==> LogCritical <= envLevel <= LogTrace)
    }

    /** The state of a freshly loaded library: nothing registered, no
        handles, both levels OFF. */
    constructor ()
      ensures Valid()
      ensures userCallback.None? && userLevel == LogOff
      ensures envLogger.None? && envLevel == LogOff && handles == map[] && delivered == []
    {
      userCallback, userRef, userLevel := None, 0, LogOff;
      envLogger, envCount, envIsFileBased, envLevel := None, 0, false, LogOff;
      handles, nextHandle, delivered := map[], 0, [];
    }

    /** logger_register_message_callback.  A callback (Some) registers or
        updates; None clears the registration. */
    method RegisterMessageCallback(messageCb: Option<int>, context: int, minLevel: int) returns (result: K4aResult)
      requires Valid()
      modifies this`userCallback, this`userRef, this`userLevel
      ensures Valid()
      // a level outside CRITICAL..OFF is refused
      ensures messageCb.Some? && !(LogCritical <= minLevel <= LogOff) ==>
                result == Failed && userCallback == old(userCallback) && userLevel == old(userLevel)
      // the first registration stores the callback, its context and the level
      ensures messageCb.Some? && LogCritical <= minLevel <= LogOff && old(userCallback).None? ==>
                result == Succeeded && userCallback == Some(CallbackInfo(messageCb.value, context)) && userLevel == minLevel
      // registering the same callback again only updates the level
      ensures messageCb.Some? && LogCritical <= minLevel <= LogOff && old(userCallback).Some? &&
              old(userCallback).value.callback == messageCb.value ==>
                result == Succeeded && userCallback == old(userCallback) && userLevel == minLevel
      // a different callback is refused and the registered one kept
      ensures messageCb.Some? && LogCritical <= minLevel <= LogOff && old(userCallback).Some? &&
              old(userCallback).value.callback != messageCb.value ==>
                result == Failed && userCallback == old(userCallback) && userLevel == old(userLevel)
      // clearing always succeeds and leaves nothing registered at level OFF
      ensures messageCb.None? ==> result == Succeeded && userCallback.None? && userLevel == LogOff
    {
      result := Succeeded;
      if messageCb.Some? {
        result := ResultFromBool(LogCritical <= minLevel && minLevel <= LogOff);
        if result == Succeeded {
          userRef := userRef + 1;
          var countOfRegisteredCallbacks := userRef;
          if countOfRegisteredCallbacks == 1 {
            // won the right to register
            userCallback := Some(CallbackInfo(messageCb.value, context));
            userLevel := minLevel;
          } else if userCallback.value.callback == messageCb.value {
            // the same callback: update the level
            userLevel := minLevel;
            userRef := userRef - 1;
          } else {
            // a second callback is refused
            userRef := userRef - 1;
            result := Failed;
          }
        }
      } else if userCallback.Some? {
        userCallback := None;
        userRef := userRef - 1;
        // with no logger_log in flight the reference count is now zero, so
        // the wait for callers to drain ends at once
        userLevel := LogOff;
      }
    }

    /** The first handle's setup of the env logger: a file logger when a
        path is given, else stdout when allowed, else none; a logger takes
        its level from the level variable, no logger keeps OFF. */
    method SetUpEnvLogger(logFile: Option<string>, maxLogSize: int, stdout: bool, levelValue: Option<string>)
      requires envLogger.None? && !envIsFileBased && envLevel == LogOff
      modifies this`envLogger, this`envIsFileBased, this`envLevel, this`delivered
      ensures envLogger == (if logFile.Some? then Some(FileSink(logFile.value, maxLogSize, LogFileMaxFiles))
                            else if stdout then Some(StdoutSink) else None)
      ensures envIsFileBased <==> logFile.Some?
      ensures envLevel == if envLogger.Some? then ParseLogLevel(levelValue) else LogOff
      ensures delivered == old(delivered) + (if logFile.Some? then [ToSink(envLogger.value, SpdInfo, SessionBanner)] else [])
    {
      if logFile.Some? {
        envLogger := Some(FileSink(logFile.value, maxLogSize, LogFileMaxFiles));
        delivered := delivered + [ToSink(envLogger.value, SpdInfo, SessionBanner)];
        envIsFileBased := true;
      }

      // stdout only when file logging is not on
      if envLogger.None? {
        if stdout {
          envLogger := Some(StdoutSink);
        }
      }

      if envLogger.Some? {
        envLevel := ParseLogLevel(levelValue);
      }
    }

    /** logger_create.  `config` NULL is null, `handleOk` is whether the
        handle pointer is non-NULL; `env` is the process environment. */
    method Create(config: LoggerConfig?, handleOk: bool, env: map<string, string>) returns (result: K4aResult, handle: Option<nat>)
      requires Valid()
      modifies this`envLogger, this`envCount, this`envIsFileBased, this`envLevel, this`handles, this`nextHandle, this`delivered
      ensures Valid()
      ensures userCallback == old(userCallback) && userLevel == old(userLevel)
      // the argument checks
      ensures result == Failed <==> config == null || !handleOk || config.maxLogSize == 0
      ensures result == Failed ==>
                handle.None? && handles == old(handles) && envLogger == old(envLogger) && envLevel == old(envLevel) &&
                delivered == old(delivered)
      // a new handle, sharing the env logger
      ensures result == Succeeded ==>
                handle.Some? && handle.value !in old(handles) && handles == old(handles)[handle.value := envLogger]
      // later handles reuse the env logger as it is
      ensures result == Succeeded && old(envCount) > 0 ==>
                envLogger == old(envLogger) && envLevel == old(envLevel) && delivered == old(delivered)
      // the first handle sets the env logger up from the environment: a file
      // logger when the file rules give a path, else stdout when the stdout
      // rule allows it, else none; the level comes from the level variable
      ensures result == Succeeded && old(envCount) == 0 ==>
                var path := FileLogTarget(EnvValue(env, config.envVarLogToAFile), config.logFile);
                var stdout := StdoutEnabled(EnvValue(env, config.envVarLogToStdout), userCallback.Some?);
                && envLogger == (if path.Some? then Some(FileSink(path.value, config.maxLogSize, LogFileMaxFiles))
                                 else if stdout then Some(StdoutSink) else None)
                && (envLogger.Some? ==> envLevel == ParseLogLevel(EnvValue(env, config.envVarLogLevel)))
                && delivered == old(delivered) +
                                (if path.Some? then [ToSink(envLogger.value, SpdInfo, SessionBanner)] else [])
    {
      var early := ReturnValueIfArg(Failed, config == null);
      if early.Some? {
        return early.value, None;
      }
      early := ReturnValueIfArg(Failed, !handleOk);
      if early.Some? {
        return early.value, None;
      }
      early := ReturnValueIfArg(Failed, config.maxLogSize == 0);
      if early.Some? {
        return early.value, None;
      }
      var h := nextHandle;
      nextHandle := nextHandle + 1;
      var enableFileLogging := EnvValue(env, config.envVarLogToAFile);
      var enableStdoutLogging := EnvValue(env, config.envVarLogToStdout);
      var loggingLevel := EnvValue(env, config.envVarLogLevel);

      envCount := envCount + 1;
      if envCount > 1 || envLogger.Some? {
        // reuse the configured logger while another handle is active
        handles := handles[h := envLogger];
        return Succeeded, Some(h);
      }

      var logFile := FileLogTarget(enableFileLogging, config.logFile);
      var stdout := StdoutEnabled(enableStdoutLogging, userCallback.Some?);
      SetUpEnvLogger(logFile, config.maxLogSize, stdout, loggingLevel);
      handles := handles[h := envLogger];
      result, handle := Succeeded, Some(h);
    }

    /** logger_destroy: an unknown handle is ignored; the last handle drops
        the env logger and resets the file flag and the env level. */
    method Destroy(handle: nat)
      requires Valid()
      modifies this`envLogger, this`envCount, this`envIsFileBased, this`envLevel, this`handles
      ensures Valid()
      ensures handle !in old(handles) ==>
                handles == old(handles) && envLogger == old(envLogger) && envLevel == old(envLevel) &&
                envIsFileBased == old(envIsFileBased)
      ensures handle in old(handles) ==> handles == old(handles) - {handle}
      ensures handle in old(handles) && |old(handles)| == 1 ==>
                envLogger.None? && !envIsFileBased && envLevel == LogOff
      ensures handle in old(handles) && |old(handles)| > 1 ==>
                envLogger == old(envLogger) && envLevel == old(envLevel) && envIsFileBased == old(envIsFileBased)
    {
      var early := ReturnValueIfHandleInvalid((), if handle in handles then Some(handles[handle]) else None);
      if early.Some? {
        return;
      }
      envCount := envCount - 1;
      if envCount == 0 {
        envLogger := None;
        envIsFileBased := false;
        envLevel := LogOff;
      }
      handles := handles - {handle};
    }

    /** logger_log: a message goes to the user callback when it passes the
        user level and a callback is registered, then to the env logger when
        it passes the env level and that logger exists. */
    method Log(level: int, text: string)
      requires Valid()
      modifies this`delivered, this`userRef
      ensures Valid()
      ensures delivered == old(delivered) +
                (if userCallback.Some? && Passes(level, userLevel)
                 then [ToCallback(userCallback.value, level, Formatted(text))] else []) +
                (if envLogger.Some? && Passes(level, envLevel)
                 then [ToSink(envLogger.value, SpdLevelOf(level), Formatted(text))] else [])
    {
      // quick exit when neither output wants the message
      if level > envLevel && level > userLevel {
        QuickExitIsSound(level, envLevel, userLevel);
        return;
      }
      if envLogger.Some? || userCallback.Some? {
        var buffer := Formatted(text);
        if level <= userLevel && userLevel != LogOff {
          userRef := userRef + 1;
          var loggerCb := userCallback;
          if loggerCb.Some? {
            delivered := delivered + [ToCallback(loggerCb.value, level, buffer)];
          }
          userRef := userRef - 1;
        }
        if level <= envLevel && envLevel != LogOff {
          var logger := envLogger;
          if logger.Some? {
            delivered := delivered + [ToSink(logger.value, SpdLevelOf(level), buffer)];
          }
        }
      }
    }
  }
}
