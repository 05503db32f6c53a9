/**
 * org/baracus/util/Logger.java: a per-class logger that prefixes every
 * message with the class's simple name, gates it by the level the shared
 * LoggingConfiguration determines for the class's package, and hands it to
 * the shared LogTarget.
 *
 * Logger's static fields (TAG, loggingConfiguration, logTarget) are one
 * LoggerStatics object that every Logger refers to. The log target records
 * the calls it receives; AndroidLogger and SysOutLogger, which write them
 * out, are not part of this model.
 */
module OrgLogger {
  import opened JavaLang
  import opened OrgLoggingConfiguration
  import MessageArgs

  const DEFAULT_TAG: string := "PLEASE SET TAG"

  /** A Throwable handed to the logger, by what it says of itself. */
  datatype Throwable = Throwable(description: string)

  /** What a Java expression threw. */
  datatype Thrown = NullPointerException

  /**
   * One call a LogTarget receives: the method (named by its level), the
   * tag, the message and, for the three-argument overload, the throwable.
   */
  datatype LogCall = LogCall(level: Level, tag: string, msg: string, throwable: Option<Throwable>)

  /** The public logging methods; fatal logs at ERROR. */
  datatype LogMethod = Trace | Debug | Info | Warn | Error | Fatal

  function LevelOf(m: LogMethod): Level
  {
    match m
    case Trace => TRACE
    case Debug => DEBUG
    case Info => INFO
    case Warn => WARN
    case Error => ERROR
    case Fatal => ERROR
  }

  /** A log target that keeps the calls it received, in order. */
  class LogTarget {
    var calls: seq<LogCall>

    constructor()
      ensures calls == []
    {
      calls := [];
    }

    method Receive(c: LogCall)
      modifies this
      ensures calls == old(calls) + [c]
    {
      calls := calls + [c];
    }
  }

  /** The static state of Logger. */
  class LoggerStatics {
    var tag: string
    var configuration: LoggingConfiguration
    var target: LogTarget

    ghost predicate Valid()
      reads this, configuration
    {
      configuration.Valid()
    }

    /** Class initialisation: the default tag, a fresh configuration, a fresh target. */
    constructor()
      ensures Valid() && tag == DEFAULT_TAG && fresh(configuration) && fresh(target)
      ensures configuration.configuredMap == map[DEFAULT := ERROR] && configuration.packageMap == map[]
      ensures target.calls == []
    {
      tag := DEFAULT_TAG;
      configuration := new LoggingConfiguration();
      target := new LogTarget();
    }

    /** enableTestLogger: a new target replaces the current one. */
    method EnableTestLogger()
      modifies this
      ensures fresh(target) && target.calls == []
      ensures tag == old(tag) && configuration == old(configuration)
    {
      target := new LogTarget();
    }

    /** setLogTarget. */
    method SetLogTarget(t: LogTarget)
      modifies this
      ensures target == t && tag == old(tag) && configuration == old(configuration)
    {
      target := t;
    }

    /** setLoggingConfiguration: every logger now consults c. */
    method SetLoggingConfiguration(c: LoggingConfiguration)
      modifies this
      ensures configuration == c && tag == old(tag) && target == old(target)
    {
      configuration := c;
    }

    /** setTag: the tag of every later call. */
    method SetTag(t: string)
      modifies this
      ensures tag == t && configuration == old(configuration) && target == old(target)
    {
      tag := t;
    }
  }

  /** processMessageArgs: the arguments' texts substituted for "$1".."$n"; a null message throws once there is an argument. */
  method ProcessMessageArgs(message: Option<string>, args: seq<string>) returns (r: Result<Option<string>, Thrown>)
    ensures |args| == 0 ==> r == Success(message)
    ensures |args| > 0 && message.None? ==> r == Failure(NullPointerException)
    ensures message.Some? ==> r == Success(Some(MessageArgs.Substituted(message.value, args)))
  {
    if |args| == 0 {
      return Success(message);
    }
    if message.None? {
      return Failure(NullPointerException);
    }
    var result := message.value;
    var i := 0;
    while i < |args|
      invariant 0 <= i <= |args|
      invariant result == MessageArgs.Substituted(message.value, args[..i])
    {
      assert args[..i + 1][..i] == args[..i];
      result := Replace(result, "$" + IntToString(i + 1), args[i]);
      i := i + 1;
    }
    assert args[..i] == args;
    r := Success(Some(result));
  }

  /** The message processMessageArgs yields when it does not throw. */
  function Processed(message: Option<string>, args: seq<string>): Option<string>
  {
    if message.Some? then Some(MessageArgs.Substituted(message.value, args)) else None
  }

  class Logger {
    const loggerId: string
    const targetClass: ClassRef
    const statics: LoggerStatics

    /** Whether a message of level l was let through after the lookup that just happened. */
    ghost predicate Passes(l: Level)
      reads statics, statics.configuration
    {
      targetClass.packageName in statics.configuration.packageMap &&
      Allows(statics.configuration.packageMap[targetClass.packageName], l)
    }

    /** Logger(Class): named after the class; announces itself at DEBUG. */
    constructor(classToLog: ClassRef, statics: LoggerStatics)
      requires statics.Valid()
      modifies statics.configuration, statics.target
      ensures loggerId == classToLog.simpleName && targetClass == classToLog && this.statics == statics
      ensures statics.Valid()
      ensures FilledFor(old(statics.configuration.configuredMap), old(statics.configuration.packageMap),
        statics.configuration.configuredMap, statics.configuration.packageMap, classToLog.packageName)
      ensures statics.target.calls == old(statics.target.calls) +
        (if Passes(DEBUG) then [LogCall(DEBUG, statics.tag, classToLog.simpleName + " was registered", None)] else [])
    {
      loggerId := classToLog.simpleName;
      targetClass := classToLog;
      this.statics := statics;
      new;
      Log(DEBUG, Some(loggerId + " was registered"), None);
    }

    /** isLoggable(Level): ask the configuration about the target class's package. */
    method IsLoggable(l: Level) returns (ok: bool)
      requires statics.Valid()
      modifies statics.configuration
      ensures statics.Valid()
      ensures FilledFor(old(statics.configuration.configuredMap), old(statics.configuration.packageMap),
        statics.configuration.configuredMap, statics.configuration.packageMap, targetClass.packageName)
      ensures ok == Passes(l)
    {
      ok := statics.configuration.IsLoggable(targetClass.packageName, l);
    }

    /** logMessage: null becomes "null"; the level picks the target method, the throwable the overload. */
    method LogMessage(message: Option<string>, level: Level, t: Option<Throwable>)
      modifies statics.target
      ensures statics.target.calls == old(statics.target.calls) + [LogCall(level, statics.tag, ValueOf(message), t)]
    {
      var msg := if message.None? then "null" else message.value;
      statics.target.Receive(LogCall(level, statics.tag, msg, t));
    }

    /** log(Level, String[, Throwable]): gate, then logMessage. */
    method Log(level: Level, message: Option<string>, t: Option<Throwable>)
      requires statics.Valid()
      modifies statics.configuration, statics.target
      ensures statics.Valid()
      ensures FilledFor(old(statics.configuration.configuredMap), old(statics.configuration.packageMap),
        statics.configuration.configuredMap, statics.configuration.packageMap, targetClass.packageName)
      ensures statics.target.calls == old(statics.target.calls) +
        (if Passes(level) then [LogCall(level, statics.tag, ValueOf(message), t)] else [])
    {
      var ok := IsLoggable(level);
      if ok {
        LogMessage(message, level, t);
      }
    }

    /**
     * debug/error/fatal/info/trace/warn(String, Object...): gate first,
     * then log loggerId + " " + the processed message. `args` are the
     * String.valueOf texts of the arguments. A null message with arguments
     * throws after the gate, and nothing is logged.
     */
    method LogArgs(m: LogMethod, message: Option<string>, args: seq<string>) returns (thrown: Option<Thrown>)
      requires statics.Valid()
      modifies statics.configuration, statics.target
      ensures statics.Valid()
      ensures FilledFor(old(statics.configuration.configuredMap), old(statics.configuration.packageMap),
        statics.configuration.configuredMap, statics.configuration.packageMap, targetClass.packageName)
      ensures thrown.Some? <==> Passes(LevelOf(m)) && message.None? && |args| > 0
      ensures statics.target.calls == old(statics.target.calls) +
        (if Passes(LevelOf(m)) && thrown.None?
         then [LogCall(LevelOf(m), statics.tag, loggerId + " " + ValueOf(Processed(message, args)), None)]
         else [])
    {
      var ok := IsLoggable(LevelOf(m));
      if !ok {
        return None;
      }
      var processed := ProcessMessageArgs(message, args);
      if processed.Failure? {
        return Some(processed.error);
      }
      Log(LevelOf(m), Some(loggerId + " " + ValueOf(processed.value)), None);
      thrown := None;
    }

    /** debug/error/fatal/info/trace/warn(String): log loggerId + " " + message. */
    method LogPlain(m: LogMethod, message: Option<string>)
      requires statics.Valid()
      modifies statics.configuration, statics.target
      ensures statics.Valid()
      ensures FilledFor(old(statics.configuration.configuredMap), old(statics.configuration.packageMap),
        statics.configuration.configuredMap, statics.configuration.packageMap, targetClass.packageName)
      ensures statics.target.calls == old(statics.target.calls) +
        (if Passes(LevelOf(m)) then [LogCall(LevelOf(m), statics.tag, loggerId + " " + ValueOf(message), None)] else [])
    {
      Log(LevelOf(m), Some(loggerId + " " + ValueOf(message)), None);
    }

    /** debug/error/fatal/info/trace/warn(String, Throwable): the same, with the throwable (null picks the two-argument overload). */
    method LogThrowable(m: LogMethod, message: Option<string>, e: Option<Throwable>)
      requires statics.Valid()
      modifies statics.configuration, statics.target
      ensures statics.Valid()
      ensures FilledFor(old(statics.configuration.configuredMap), old(statics.configuration.packageMap),
        statics.configuration.configuredMap, statics.configuration.packageMap, targetClass.packageName)
      ensures statics.target.calls == old(statics.target.calls) +
        (if Passes(LevelOf(m)) then [LogCall(LevelOf(m), statics.tag, loggerId + " " + ValueOf(message), e)] else [])
    {
      Log(LevelOf(m), Some(loggerId + " " + ValueOf(message)), e);
    }
  }

  /**
   * LoggingConfigurationTest's set-up: a test target, and a configuration
   * with "org.baracus.dao" at ERROR, the package of LoggingConfiguration
   * ("org.baracus.util") at DEBUG and "org.baracus" at WARN.
   */
  method SetUpTestLogging() returns (statics: LoggerStatics)
    ensures fresh(statics) && fresh(statics.configuration) && fresh(statics.target)
    ensures statics.Valid() && statics.tag == DEFAULT_TAG && statics.target.calls == []
    ensures statics.configuration.packageMap == map[]
    ensures "org.baracus.dao" in statics.configuration.configuredMap
    ensures statics.configuration.configuredMap["org.baracus.dao"] == ERROR
    ensures "org.baracus.util" in statics.configuration.configuredMap
    ensures statics.configuration.configuredMap["org.baracus.util"] == DEBUG
    ensures "org.baracus" in statics.configuration.configuredMap
    ensures statics.configuration.configuredMap["org.baracus"] == WARN
  {
    statics := new LoggerStatics();
    statics.EnableTestLogger();
    var candidate := new LoggingConfiguration();
    candidate.SetPackageLogLevel("org.baracus.dao", ERROR);
    candidate.SetClassLogLevel(ClassRef("LoggingConfiguration", "org.baracus.util"), DEBUG);
    candidate.SetLogLevel("org.baracus", WARN);
    statics.SetLoggingConfiguration(candidate);
  }

  /** The three loggers of the test; only the one for LoggingConfiguration announces itself. */
  method CreateTestLoggers(statics: LoggerStatics) returns (daoLogger: Logger, utilLogger: Logger, dummyLogger: Logger)
    requires statics.Valid() && statics.configuration.packageMap == map[]
    requires "org.baracus.dao" in statics.configuration.configuredMap
    requires statics.configuration.configuredMap["org.baracus.dao"] == ERROR
    requires "org.baracus.util" in statics.configuration.configuredMap
    requires statics.configuration.configuredMap["org.baracus.util"] == DEBUG
    requires "org.baracus" in statics.configuration.configuredMap
    requires statics.configuration.configuredMap["org.baracus"] == WARN
    modifies statics.configuration, statics.target
    ensures statics.Valid()
    ensures daoLogger.statics == statics && utilLogger.statics == statics && dummyLogger.statics == statics
    ensures daoLogger.loggerId == "BaseDao" && daoLogger.targetClass.packageName == "org.baracus.dao"
    ensures utilLogger.loggerId == "LoggingConfiguration" && utilLogger.targetClass.packageName == "org.baracus.util"
    ensures dummyLogger.loggerId == "DummyClassForLogging" && dummyLogger.targetClass.packageName == "org.baracus"
    ensures statics.configuration.packageMap == map["org.baracus.dao" := ERROR, "org.baracus.util" := DEBUG, "org.baracus" := WARN]
    ensures statics.target.calls == old(statics.target.calls) +
      [LogCall(DEBUG, statics.tag, "LoggingConfiguration was registered", None)]
  {
    daoLogger := new Logger(ClassRef("BaseDao", "org.baracus.dao"), statics);
    assert statics.target.calls == old(statics.target.calls);
    utilLogger := new Logger(ClassRef("LoggingConfiguration", "org.baracus.util"), statics);
    assert "LoggingConfiguration" + " was registered" == "LoggingConfiguration was registered";
    ghost var afterUtil := statics.target.calls;
    assert afterUtil == old(statics.target.calls) + [LogCall(DEBUG, statics.tag, "LoggingConfiguration was registered", None)];
    dummyLogger := new Logger(ClassRef("DummyClassForLogging", "org.baracus"), statics);
    assert statics.target.calls == afterUtil;
  }

  /**
   * LoggingConfigurationTest.testIsLoggable: of the constructor
   * announcements and the eight messages logged, exactly these calls reach
   * the target, in this order.
   */
  method ConfigurationTestScenario() returns (calls: seq<LogCall>)
    ensures calls == [
      LogCall(DEBUG, DEFAULT_TAG, "LoggingConfiguration was registered", None),
      LogCall(DEBUG, DEFAULT_TAG, "LoggingConfiguration BAR", None),
      LogCall(ERROR, DEFAULT_TAG, "LoggingConfiguration FOOO", None),
      LogCall(ERROR, DEFAULT_TAG, "BaseDao BAAR", None),
      LogCall(WARN, DEFAULT_TAG, "DummyClassForLogging WARNING", None)]
  {
    var statics := SetUpTestLogging();
    var daoLogger, utilLogger, dummyLogger := CreateTestLoggers(statics);
    LogTestMessages(statics, daoLogger, utilLogger, dummyLogger);
    calls := statics.target.calls;
  }

  /**
   * The six messages of testIsLoggable: INFO and DEBUG are below the
   * levels of "org.baracus.dao" and "org.baracus", so four of them pass.
   */
  method LogTestMessages(statics: LoggerStatics, daoLogger: Logger, utilLogger: Logger, dummyLogger: Logger)
    requires statics.Valid() && statics.tag == DEFAULT_TAG
    requires daoLogger.statics == statics && utilLogger.statics == statics && dummyLogger.statics == statics
    requires daoLogger.loggerId == "BaseDao" && daoLogger.targetClass.packageName == "org.baracus.dao"
    requires utilLogger.loggerId == "LoggingConfiguration" && utilLogger.targetClass.packageName == "org.baracus.util"
    requires dummyLogger.loggerId == "DummyClassForLogging" && dummyLogger.targetClass.packageName == "org.baracus"
    requires statics.configuration.packageMap == map["org.baracus.dao" := ERROR, "org.baracus.util" := DEBUG, "org.baracus" := WARN]
    modifies statics.configuration, statics.target
    ensures statics.target.calls == old(statics.target.calls) + [
      LogCall(DEBUG, DEFAULT_TAG, "LoggingConfiguration BAR", None),
      LogCall(ERROR, DEFAULT_TAG, "LoggingConfiguration FOOO", None),
      LogCall(ERROR, DEFAULT_TAG, "BaseDao BAAR", None),
      LogCall(WARN, DEFAULT_TAG, "DummyClassForLogging WARNING", None)]
  {
    var c := statics.configuration;
    assert c.packageMap["org.baracus.dao"] == ERROR && c.packageMap["org.baracus.util"] == DEBUG;
    assert c.packageMap["org.baracus"] == WARN;
    ghost var calls0 := statics.target.calls;
    assert "LoggingConfiguration" + " " + "BAR" == "LoggingConfiguration BAR";
    assert "LoggingConfiguration" + " " + "FOOO" == "LoggingConfiguration FOOO";
    assert "BaseDao" + " " + "BAAR" == "BaseDao BAAR";
    assert "DummyClassForLogging" + " " + "WARNING" == "DummyClassForLogging WARNING";

    daoLogger.LogPlain(Info, Some("FOO"));
    assert statics.target.calls == calls0;
    utilLogger.LogPlain(Debug, Some("BAR"));
    ghost var calls1 := statics.target.calls;
    assert calls1 == calls0 + [LogCall(DEBUG, DEFAULT_TAG, "LoggingConfiguration BAR", None)];
    utilLogger.LogPlain(Error, Some("FOOO"));
    ghost var calls2 := statics.target.calls;
    assert calls2 == calls1 + [LogCall(ERROR, DEFAULT_TAG, "LoggingConfiguration FOOO", None)];
    daoLogger.LogPlain(Error, Some("BAAR"));
    ghost var calls3 := statics.target.calls;
    assert calls3 == calls2 + [LogCall(ERROR, DEFAULT_TAG, "BaseDao BAAR", None)];
    dummyLogger.LogPlain(Debug, Some("FOOBART"));
    assert statics.target.calls == calls3;
    dummyLogger.LogPlain(Warn, Some("WARNING"));
  }
}
