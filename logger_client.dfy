/**
 * The browser logger: a pino-shaped object whose log methods forward to the
 * console in development and do nothing in production. `isDevelopment` is the
 * build's `import.meta.env.DEV`, fixed for the lifetime of the page.
 */
module ClientLogger {
  import opened Common

  /** The JavaScript values a log method can be called with, by what `typeof` tells apart. */
  datatype JsValue =
    | JsString(s: string)
    | JsNumber(n: real)
    | JsBoolean(b: bool)
    | JsNull
    | JsUndefined
    | JsObject(ref: nat)    // any non-null object, arrays included
    | JsFunction(ref: nat)

  /** The six log methods. */
  datatype Level = Trace | Debug | Info | Warn | Error | Fatal

  datatype ConsoleMethod = ConsoleTrace | ConsoleLog | ConsoleInfo | ConsoleWarn | ConsoleError

  /** One call on the console. */
  datatype ConsoleCall = ConsoleCall(target: ConsoleMethod, args: seq<JsValue>)

  /** The console method each log method forwards to. */
  function ConsoleMethodOf(level: Level): (m: ConsoleMethod)
    ensures m == ConsoleError <==> level == Error || level == Fatal
    ensures m == ConsoleLog <==> level == Debug
    ensures m == ConsoleTrace <==> level == Trace
    ensures m == ConsoleInfo <==> level == Info
    ensures m == ConsoleWarn <==> level == Warn
  {
    match level
    case Trace => ConsoleTrace
    case Debug => ConsoleLog
    case Info => ConsoleInfo
    case Warn => ConsoleWarn
    case Error => ConsoleError
    case Fatal => ConsoleError
  }

  /** `args[i]`, which is `undefined` past the end. */
  function Arg(args: seq<JsValue>, i: nat): JsValue {
    if i < |args| then args[i] else JsUndefined
  }

  /**
   * The arguments the function `createLogFunction` returns passes to the console,
   * or None when it logs nothing. Pino's `(obj, msg)` order becomes `(msg, obj)`.
   */
  function LogArgs(isDevelopment: bool, args: seq<JsValue>): (r: Option<seq<JsValue>>)
    ensures r.Some? <==> isDevelopment && (Arg(args, 0).JsString? || Arg(args, 0).JsObject?)
    ensures r.Some? ==>
      && 1 <= |r.value| <= 2
      && r.value[|r.value| - 1] == Arg(args, 0)
      && (|r.value| == 2 <==> Arg(args, 0).JsObject? && Arg(args, 1).JsString?)
      && (|r.value| == 2 ==> r.value[0] == Arg(args, 1))
  {
    if !isDevelopment then None
    else
      var first, second := Arg(args, 0), Arg(args, 1);
      if first.JsString? then Some([first])
      else if first.JsObject? then (if second.JsString? then Some([second, first]) else Some([first]))
      else None
  }

  /** Only the first two arguments matter. */
  lemma LogArgsFirstTwo(isDevelopment: bool, args: seq<JsValue>, rest: seq<JsValue>)
    requires |args| >= 2
    ensures LogArgs(isDevelopment, args[..2] + rest) == LogArgs(isDevelopment, args)
  {
  }

  /** A string first argument is logged alone, whatever follows it. */
  lemma StringFirstLoggedAlone(msg: string, rest: seq<JsValue>)
    ensures LogArgs(true, [JsString(msg)] + rest) == Some([JsString(msg)])
  {
  }

  /** `logger[level](...args)`: in production every log method is the no-op. */
  function Log(isDevelopment: bool, level: Level, args: seq<JsValue>): (r: Option<ConsoleCall>)
    ensures !isDevelopment ==> r == None
    ensures r.Some? ==> r.value.target == ConsoleMethodOf(level) && Some(r.value.args) == LogArgs(isDevelopment, args)
    ensures isDevelopment && LogArgs(isDevelopment, args).Some? ==> r.Some?
  {
    if !isDevelopment then None
    else match LogArgs(isDevelopment, args)
      case Some(a) => Some(ConsoleCall(ConsoleMethodOf(level), a))
      case None => None
  }

  // ---------------------------------------------------------------------------
  // Level management
  // ---------------------------------------------------------------------------

  /** `levels.values`. */
  const LevelValues: map<string, int> :=
    map["trace" := 10, "debug" := 20, "info" := 30, "warn" := 40, "error" := 50, "fatal" := 60]

  /** `levels.labels`. */
  const LevelLabels: map<int, string> :=
    map[10 := "trace", 20 := "debug", 30 := "info", 40 := "warn", 50 := "error", 60 := "fatal"]

  function LevelName(level: Level): string {
    match level
    case Trace => "trace"
    case Debug => "debug"
    case Info => "info"
    case Warn => "warn"
    case Error => "error"
    case Fatal => "fatal"
  }

  /** The position of a level from least to most severe. */
  function Severity(level: Level): nat {
    match level
    case Trace => 0
    case Debug => 1
    case Info => 2
    case Warn => 3
    case Error => 4
    case Fatal => 5
  }

  /** `levels.labels` is the inverse of `levels.values`, in both directions. */
  lemma LabelsInvertValues()
    ensures LevelValues.Keys == set level: Level :: LevelName(level)
    ensures forall name :: name in LevelValues ==> LevelValues[name] in LevelLabels && LevelLabels[LevelValues[name]] == name
    ensures forall v :: v in LevelLabels ==> LevelLabels[v] in LevelValues && LevelValues[LevelLabels[v]] == v
  {
    assert LevelName(Trace) == "trace" && LevelName(Debug) == "debug" && LevelName(Info) == "info";
    assert LevelName(Warn) == "warn" && LevelName(Error) == "error" && LevelName(Fatal) == "fatal";
  }

  /** The values grow strictly with severity: trace < debug < info < warn < error < fatal. */
  lemma ValuesIncrease(a: Level, b: Level)
    requires Severity(a) < Severity(b)
    ensures LevelName(a) in LevelValues && LevelName(b) in LevelValues
    ensures LevelValues[LevelName(a)] < LevelValues[LevelName(b)]
  {
  }

  /** The logger object; it holds nothing that changes. */
  datatype Logger = Logger(isDevelopment: bool) {
    /** `level`. */
    function LevelSetting(): string {
      if isDevelopment then "debug" else "silent"
    }

    /** `isLevelEnabled(level)`: the development flag, whatever the level. */
    function IsLevelEnabled(level: string): bool {
      isDevelopment
    }

    /** `child()`: the same logger. */
    function Child(): Logger {
      this
    }
  }

  /** A child logs exactly as its parent, and enabling does not depend on the level asked about. */
  lemma ChildIsSameLogger(l: Logger, level: Level, args: seq<JsValue>, a: string, b: string)
    ensures l.Child() == l
    ensures Log(l.Child().isDevelopment, level, args) == Log(l.isDevelopment, level, args)
    ensures l.IsLevelEnabled(a) == l.IsLevelEnabled(b) == l.isDevelopment
    ensures l.IsLevelEnabled(a) <==> l.LevelSetting() != "silent"
  {
  }
}
