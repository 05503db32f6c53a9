/**
 * net/mantucon/baracus/util/Logger.java: the older logger. Every message
 * is prefixed with the logger id and gated by one static level, DEBUG,
 * which nothing changes.
 *
 * The static TAG and logTarget are one LoggerStatics object that every
 * Logger refers to; the target records the calls it receives
 * (AndroidLogger and SysOutLogger are not part of this model).
 */
module NetLogger {
  import opened JavaLang
  import MessageArgs

  /** Logger.Level, from the most to the least severe. */
  datatype Level = ERROR | WARN | INFO | DEBUG | TRACE

  /** How chatty a level is: ERROR 0 up to TRACE 4. */
  function Verbosity(l: Level): nat
  {
    match l
    case ERROR => 0
    case WARN => 1
    case INFO => 2
    case DEBUG => 3
    case TRACE => 4
  }

  /** The static level every logger is gated by. */
  const LEVEL: Level := DEBUG

  const DEFAULT_TAG: string := "PLEASE SET TAG"

  /** isLoggable: the switch over the static level. */
  function IsLoggable(l: Level): (ok: bool)
    ensures ok <==> Verbosity(l) <= Verbosity(LEVEL)
  {
    match LEVEL
    case TRACE => true
    case DEBUG => l != TRACE
    case INFO => l != TRACE && l != DEBUG
    case WARN => l == WARN || l == ERROR
    case ERROR => l == ERROR
  }

  /** With the static level at DEBUG, only TRACE messages are dropped. */
  lemma OnlyTraceSuppressed(l: Level)
    ensures IsLoggable(l) <==> l != TRACE
  {
  }

  datatype Throwable = Throwable(description: string)

  datatype Thrown = NullPointerException

  /** One call a LogTarget receives: method (by level), tag, message, throwable of the three-argument overload. */
  datatype LogCall = LogCall(level: Level, tag: string, msg: string, throwable: Option<Throwable>)

  /** The public logging methods; fatal logs at ERROR. */
  datatype LogMethod = Trace | Debug | Info | Warn | Error | Fatal

  function LevelOf(m: LogMethod): Level
  {
    match m
    case Trace => TRACE
    case Debug => DEBUG
    case Info => INFO
    case Warn => WARN
    case Error => ERROR
    case Fatal => ERROR
  }

  class LogTarget {
    var calls: seq<LogCall>

    constructor()
      ensures calls == []
    {
      calls := [];
    }

    method Receive(c: LogCall)
      modifies this
      ensures calls == old(calls) + [c]
    {
      calls := calls + [c];
    }
  }

  /** The static TAG and logTarget. */
  class LoggerStatics {
    var tag: string
    var target: LogTarget

    constructor()
      ensures tag == DEFAULT_TAG && fresh(target) && target.calls == []
    {
      tag := DEFAULT_TAG;
      target := new LogTarget();
    }

    /** enableTestLogger: a new target replaces the current one. */
    method EnableTestLogger()
      modifies this
      ensures fresh(target) && target.calls == [] && tag == old(tag)
    {
      target := new LogTarget();
    }

    /** setTag. */
    method SetTag(t: string)
      modifies this
      ensures tag == t && target == old(target)
    {
      tag := t;
    }
  }

  /** processMessageArgs: "$1".."$n" replaced in turn; a null message throws once there is an argument. */
  method ProcessMessageArgs(message: Option<string>, args: seq<string>) returns (r: Result<Option<string>, Thrown>)
    ensures |args| == 0 ==> r == Success(message)
    ensures |args| > 0 && message.None? ==> r == Failure(NullPointerException)
    ensures message.Some? ==> r == Success(Some(MessageArgs.Substituted(message.value, args)))
  {
    if |args| == 0 {
      return Success(message);
    }
    if message.None? {
      return Failure(NullPointerException);
    }
    var result := message.value;
    var i := 0;
    while i < |args|
      invariant 0 <= i <= |args|
      invariant result == MessageArgs.Substituted(message.value, args[..i])
    {
      assert args[..i + 1][..i] == args[..i];
      result := Replace(result, "$" + IntToString(i + 1), args[i]);
      i := i + 1;
    }
    assert args[..i] == args;
    r := Success(Some(result));
  }

  /** The message processMessageArgs yields when it does not throw. */
  function Processed(message: Option<string>, args: seq<string>): Option<string>
  {
    if message.Some? then Some(MessageArgs.Substituted(message.value, args)) else None
  }

  class Logger {
    const loggerId: string
    const statics: LoggerStatics

    /** Logger(String): announces itself at DEBUG, which the static level lets through. */
    constructor(loggerId: string, statics: LoggerStatics)
      modifies statics.target
      ensures this.loggerId == loggerId && this.statics == statics
      ensures statics.target.calls == old(statics.target.calls) + [LogCall(DEBUG, statics.tag, loggerId + " was registered", None)]
    {
      this.loggerId := loggerId;
      this.statics := statics;
      new;
      Log(DEBUG, Some(loggerId + " was registered"), None);
    }

    /** Logger(Class): the class's simple name is the id. */
    constructor OfClass(classToLog: ClassRef, statics: LoggerStatics)
      modifies statics.target
      ensures loggerId == classToLog.simpleName && this.statics == statics
      ensures statics.target.calls == old(statics.target.calls) +
        [LogCall(DEBUG, statics.tag, classToLog.simpleName + " was registered", None)]
    {
      loggerId := classToLog.simpleName;
      this.statics := statics;
      new;
      Log(DEBUG, Some(loggerId + " was registered"), None);
    }

    /** logMessage: null becomes "null"; the level picks the target method, the throwable the overload. */
    method LogMessage(message: Option<string>, level: Level, t: Option<Throwable>)
      modifies statics.target
      ensures statics.target.calls == old(statics.target.calls) + [LogCall(level, statics.tag, ValueOf(message), t)]
    {
      var msg := if message.None? then "null" else message.value;
      statics.target.Receive(LogCall(level, statics.tag, msg, t));
    }

    /** log(Level, String[, Throwable]): gate, then logMessage. */
    method Log(level: Level, message: Option<string>, t: Option<Throwable>)
      modifies statics.target
      ensures statics.target.calls == old(statics.target.calls) +
        (if IsLoggable(level) then [LogCall(level, statics.tag, ValueOf(message), t)] else [])
    {
      if IsLoggable(level) {
        LogMessage(message, level, t);
      }
    }

    /**
     * The vararg methods: gate, then log loggerId + " " + the processed
     * message (`args` are the String.valueOf texts). A null message with
     * arguments throws after the gate.
     */
    method LogArgs(m: LogMethod, message: Option<string>, args: seq<string>) returns (thrown: Option<Thrown>)
      modifies statics.target
      ensures thrown.Some? <==> IsLoggable(LevelOf(m)) && message.None? && |args| > 0
      ensures statics.target.calls == old(statics.target.calls) +
        (if IsLoggable(LevelOf(m)) && thrown.None?
         then [LogCall(LevelOf(m), statics.tag, loggerId + " " + ValueOf(Processed(message, args)), None)]
         else [])
    {
      if !IsLoggable(LevelOf(m)) {
        return None;
      }
      var processed := ProcessMessageArgs(message, args);
      if processed.Failure? {
        return Some(processed.error);
      }
      Log(LevelOf(m), Some(loggerId + " " + ValueOf(processed.value)), None);
      thrown := None;
    }

    /** The one-argument methods: log loggerId + " " + message. */
    method LogPlain(m: LogMethod, message: Option<string>)
      modifies statics.target
      ensures statics.target.calls == old(statics.target.calls) +
        (if IsLoggable(LevelOf(m)) then [LogCall(LevelOf(m), statics.tag, loggerId + " " + ValueOf(message), None)] else [])
    {
      Log(LevelOf(m), Some(loggerId + " " + ValueOf(message)), None);
    }

    /** The (String, Throwable) methods: the same with the throwable (null picks the two-argument overload). */
    method LogThrowable(m: LogMethod, message: Option<string>, e: Option<Throwable>)
      modifies statics.target
      ensures statics.target.calls == old(statics.target.calls) +
        (if IsLoggable(LevelOf(m)) then [LogCall(LevelOf(m), statics.tag, loggerId + " " + ValueOf(message), e)] else [])
    {
      Log(LevelOf(m), Some(loggerId + " " + ValueOf(message)), e);
    }
  }

  /**
   * A logger at the default level: its announcement and an info message
   * get through, a trace message does not, and a null message is logged
   * as "null".
   */
  method DefaultLevelScenario() returns (calls: seq<LogCall>)
    ensures calls == [
      LogCall(DEBUG, DEFAULT_TAG, "Dao was registered", None),
      LogCall(INFO, DEFAULT_TAG, "Dao saved", None),
      LogCall(WARN, DEFAULT_TAG, "Dao null", None)]
  {
    var statics := new LoggerStatics();
    var logger := new Logger.OfClass(ClassRef("Dao", "net.mantucon.baracus.dao"), statics);
    assert "Dao" + " was registered" == "Dao was registered";
    logger.LogPlain(Trace, Some("skipped"));
    logger.LogPlain(Info, Some("saved"));
    assert "Dao" + " " + "saved" == "Dao saved";
    logger.LogPlain(Warn, None);
    assert "Dao" + " " + "null" == "Dao null";
    calls := statics.target.calls;
  }
}
