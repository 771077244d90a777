/**
 * The Vite dev-server logger: each message is echoed to the console and queued,
 * as a timestamped line with its colour codes removed, for appending to
 * `.logs/vite.log`. The queue, the `isWriting` flag and the file are state
 * shared by every logger; `hasWarned` belongs to one logger.
 */
module ViteLogger {
  import opened Common

  // ---------------------------------------------------------------------------
  // stripAnsi: str.replace(/\u001b\[[0-9;]*m/g, '')
  // ---------------------------------------------------------------------------

  const Esc: char := '\U{1B}'

  /** A character of `[0-9;]`. */
  predicate IsParamChar(c: char) {
    '0' <= c <= '9' || c == ';'
  }

  /** A whole `ESC [ [0-9;]* m` run: a string the pattern matches. */
  predicate IsSgr(run: string) {
    && |run| >= 3
    && run[0] == Esc && run[1] == '[' && run[|run| - 1] == 'm'
    && forall i :: 2 <= i < |run| - 1 ==> IsParamChar(run[i])
  }

  /** The length of the longest prefix of `s` drawn from `[0-9;]`. */
  function ParamRun(s: string): (n: nat)
    ensures n <= |s|
    ensures forall i :: 0 <= i < n ==> IsParamChar(s[i])
    ensures n < |s| ==> !IsParamChar(s[n])
  {
    if s != [] && IsParamChar(s[0]) then 1 + ParamRun(s[1..]) else 0
  }

  /** The length of the pattern's match at the head of `s`, if it matches there. */
  function MatchAt(s: string): (r: Option<nat>)
    ensures r.Some? ==> r.value <= |s| && IsSgr(s[..r.value])
  {
    if 2 <= |s| && s[0] == Esc && s[1] == '[' then
      var k := ParamRun(s[2..]);
      if 2 + k < |s| && s[2 + k] == 'm' then Some(3 + k) else None
    else None
  }

  /** MatchAt finds every match: whenever a prefix of `s` is a whole run, it is the one MatchAt reports. */
  lemma MatchAtComplete(s: string, n: nat)
    requires n <= |s| && IsSgr(s[..n])
    ensures MatchAt(s) == Some(n)
  {
  }

  /** The replacement, scanning left to right: a match is dropped whole, any other character kept. */
  function StripAnsi(s: string): (r: string)
    ensures |r| <= |s|
    decreases |s|
  {
    if s == [] then []
    else match MatchAt(s)
      case Some(n) => StripAnsi(s[n..])
      case None => [s[0]] + StripAnsi(s[1..])
  }

  /** A string without ESC comes back unchanged. */
  lemma {:induction false} StripAnsiNoEscape(s: string)
    requires Esc !in s
    ensures StripAnsi(s) == s
  {
    if s != [] {
      assert s[0] != Esc;
      assert Esc !in s[1..];
      StripAnsiNoEscape(s[1..]);
    }
  }

  /** Every character of the result comes from the input. */
  lemma {:induction false} StripAnsiChars(s: string)
    ensures forall c :: c in StripAnsi(s) ==> c in s
  {
    if s != [] {
      match MatchAt(s)
      case Some(n) =>
        StripAnsiChars(s[n..]);
        assert forall c :: c in s[n..] ==> c in s;
      case None =>
        StripAnsiChars(s[1..]);
        assert forall c :: c in s[1..] ==> c in s;
    }
  }

  /** One left-to-right pass is not idempotent: removing a run can bring a new one together. */
  lemma SinglePassNotIdempotent()
    ensures StripAnsi([Esc, Esc, '[', 'm', '[', 'm']) == [Esc, '[', 'm']
    ensures StripAnsi([Esc, '[', 'm']) == []
  {
    var s := [Esc, Esc, '[', 'm', '[', 'm'];
    var run := [Esc, '[', 'm'];
    assert MatchAt(s) == None;
    assert s[1..] == run + ['[', 'm'];
    assert s[1..][..3] == run;
    MatchAtComplete(s[1..], 3);
    assert s[1..][3..] == ['[', 'm'];
    assert MatchAt(['[', 'm']) == None;
    assert MatchAt(['m']) == None;
    assert StripAnsi(['m']) == ['m'];
    assert StripAnsi(['[', 'm']) == ['[', 'm'];
    assert StripAnsi(s[1..]) == ['[', 'm'];
    assert StripAnsi(s) == [Esc] + ['[', 'm'];
    assert run[..3] == run;
    MatchAtComplete(run, 3);
    assert run[3..] == [];
  }

  /** How one pass reads the input: characters it keeps and runs it removes. */
  datatype Piece = Kept(c: char) | Removed(run: string)

  function Scan(s: string): seq<Piece>
    decreases |s|
  {
    if s == [] then []
    else match MatchAt(s)
      case Some(n) => [Removed(s[..n])] + Scan(s[n..])
      case None => [Kept(s[0])] + Scan(s[1..])
  }

  /** The text the pieces were read from. */
  function Flatten(ps: seq<Piece>): string {
    if ps == [] then []
    else (match ps[0] case Kept(c) => [c] case Removed(run) => run) + Flatten(ps[1..])
  }

  /** The characters kept. */
  function KeptText(ps: seq<Piece>): string {
    if ps == [] then []
    else (match ps[0] case Kept(c) => [c] case Removed(_) => []) + KeptText(ps[1..])
  }

  predicate OnlyRunsRemoved(ps: seq<Piece>) {
    forall i :: 0 <= i < |ps| && ps[i].Removed? ==> IsSgr(ps[i].run)
  }

  /** The pieces spell out the input. */
  lemma {:induction false} ScanCoversInput(s: string)
    ensures Flatten(Scan(s)) == s
    decreases |s|
  {
    if s != [] {
      var ps := Scan(s);
      match MatchAt(s)
      case Some(n) =>
        assert ps[0] == Removed(s[..n]) && ps[1..] == Scan(s[n..]);
        assert Flatten(ps) == s[..n] + Flatten(ps[1..]);
        ScanCoversInput(s[n..]);
        assert s == s[..n] + s[n..];
      case None =>
        assert ps[0] == Kept(s[0]) && ps[1..] == Scan(s[1..]);
        assert Flatten(ps) == [s[0]] + Flatten(ps[1..]);
        ScanCoversInput(s[1..]);
        assert s == [s[0]] + s[1..];
    }
  }

  /** Every piece removed is a whole run. */
  lemma {:induction false} ScanRemovesOnlyRuns(s: string)
    ensures OnlyRunsRemoved(Scan(s))
    decreases |s|
  {
    if s != [] {
      var ps := Scan(s);
      match MatchAt(s)
      case Some(n) =>
        ScanRemovesOnlyRuns(s[n..]);
        assert ps[1..] == Scan(s[n..]);
        forall i | 1 <= i < |ps| && ps[i].Removed? ensures IsSgr(ps[i].run) {
          assert ps[i] == ps[1..][i - 1];
        }
      case None =>
        ScanRemovesOnlyRuns(s[1..]);
        assert ps[1..] == Scan(s[1..]);
        forall i | 1 <= i < |ps| && ps[i].Removed? ensures IsSgr(ps[i].run) {
          assert ps[i] == ps[1..][i - 1];
        }
    }
  }

  /** The output is the kept characters. */
  lemma {:induction false} ScanKeepsOutput(s: string)
    ensures KeptText(Scan(s)) == StripAnsi(s)
    decreases |s|
  {
    if s != [] {
      var ps := Scan(s);
      match MatchAt(s)
      case Some(n) =>
        ScanKeepsOutput(s[n..]);
        assert ps[0] == Removed(s[..n]) && ps[1..] == Scan(s[n..]);
      case None =>
        ScanKeepsOutput(s[1..]);
        assert ps[0] == Kept(s[0]) && ps[1..] == Scan(s[1..]);
    }
  }

  /** No character is kept where a run begins. */
  lemma {:induction false} ScanKeepsNoRunStart(s: string)
    ensures forall i :: 0 <= i < |Scan(s)| && Scan(s)[i].Kept? ==> MatchAt(Flatten(Scan(s)[i..])) == None
    decreases |s|
  {
    if s != [] {
      var ps := Scan(s);
      var rest := match MatchAt(s) case Some(n) => s[n..] case None => s[1..];
      assert ps[1..] == Scan(rest);
      ScanKeepsNoRunStart(rest);
      forall i | 0 <= i < |ps| && ps[i].Kept? ensures MatchAt(Flatten(ps[i..])) == None {
        if i == 0 {
          ScanCoversInput(s);
          assert ps[0..] == ps;
        } else {
          assert ps[i..] == ps[1..][i - 1..];
        }
      }
    }
  }

  /**
   * The output arises from the input only by deleting whole `ESC [ [0-9;]* m` runs:
   * the input splits into kept characters and such runs, and the output is the kept
   * characters in their order; and no character is kept where a run begins, so every
   * run the pass meets is removed.
   */
  lemma {:induction false} StripAnsiDeletesWholeRuns(s: string)
    ensures Flatten(Scan(s)) == s
    ensures OnlyRunsRemoved(Scan(s))
    ensures KeptText(Scan(s)) == StripAnsi(s)
    ensures forall i :: 0 <= i < |Scan(s)| && Scan(s)[i].Kept? ==> MatchAt(Flatten(Scan(s)[i..])) == None
  {
    ScanKeepsNoRunStart(s);
    ScanCoversInput(s);
    ScanRemovesOnlyRuns(s);
    ScanKeepsOutput(s);
  }

  /** A run at the head of the input is removed whole: the pass goes on after it. */
  lemma StripAnsiRemovesRun(run: string, s: string)
    requires IsSgr(run)
    ensures StripAnsi(run + s) == StripAnsi(s)
  {
    var t := run + s;
    assert t[..|run|] == run;
    MatchAtComplete(t, |run|);
    assert t[|run|..] == s;
  }

  /** Text without ESC at the head of the input is kept as it is. */
  lemma {:induction false} StripAnsiKeepsPlainText(a: string, s: string)
    requires Esc !in a
    ensures StripAnsi(a + s) == a + StripAnsi(s)
  {
    if a == [] {
      assert a + s == s;
    } else {
      var t := a + s;
      assert t[0] == a[0] && a[0] != Esc;
      assert MatchAt(t) == None;
      assert StripAnsi(t) == [t[0]] + StripAnsi(t[1..]);
      assert t[1..] == a[1..] + s;
      assert Esc !in a[1..];
      StripAnsiKeepsPlainText(a[1..], s);
      assert [a[0]] + (a[1..] + StripAnsi(s)) == a + StripAnsi(s);
    }
  }

  /**
   * Colour codes between plain text are all removed: text built from ESC-free pieces
   * with one run after each comes back as the pieces alone.
   */
  lemma {:induction false} StripAnsiRemovesEveryRun(texts: seq<string>, runs: seq<string>)
    requires |texts| == |runs|
    requires forall i :: 0 <= i < |texts| ==> Esc !in texts[i] && IsSgr(runs[i])
    ensures StripAnsi(Interleave(texts, runs)) == Join(texts)
  {
    if texts != [] {
      var rest := Interleave(texts[1..], runs[1..]);
      assert Interleave(texts, runs) == texts[0] + (runs[0] + rest);
      StripAnsiKeepsPlainText(texts[0], runs[0] + rest);
      StripAnsiRemovesRun(runs[0], rest);
      StripAnsiRemovesEveryRun(texts[1..], runs[1..]);
    }
  }

  /** `texts[0] + runs[0] + texts[1] + runs[1] + …`. */
  function Interleave(texts: seq<string>, runs: seq<string>): string
    requires |texts| == |runs|
  {
    if texts == [] then "" else texts[0] + runs[0] + Interleave(texts[1..], runs[1..])
  }

  // ---------------------------------------------------------------------------
  // formatLog
  // ---------------------------------------------------------------------------

  /** Vite's `LogLevel`. */
  datatype LogLevel = Info | Warn | Error | Silent

  function LevelName(level: LogLevel): string {
    match level
    case Info => "info"
    case Warn => "warn"
    case Error => "error"
    case Silent => "silent"
  }

  function UpperChar(c: char): char {
    if 'a' <= c <= 'z' then (c as int - 32) as char else c
  }

  /** `toUpperCase` on ASCII text. */
  function ToUpper(s: string): (r: string)
    ensures |r| == |s| && forall i :: 0 <= i < |s| ==> r[i] == UpperChar(s[i])
  {
    if s == [] then [] else [UpperChar(s[0])] + ToUpper(s[1..])
  }

  /** The line written for one message; `timestamp` is what `new Date().toISOString()` returned. */
  function FormatLog(level: LogLevel, timestamp: string, message: string): (line: string)
    ensures |line| == |timestamp| + |LevelName(level)| + |StripAnsi(message)| + 7
    ensures line[..|timestamp| + 2] == "[" + timestamp + "]"
    ensures line[|timestamp| + 2..|timestamp| + 4] == " ["
    ensures line[|timestamp| + 4..|timestamp| + 4 + |LevelName(level)|] == ToUpper(LevelName(level))
    ensures line[|line| - 1 - |StripAnsi(message)|..] == StripAnsi(message) + "\n"
  {
    "[" + timestamp + "] [" + ToUpper(LevelName(level)) + "] " + StripAnsi(message) + "\n"
  }

  /** The level tag is the upper-case level name. */
  lemma LevelTags()
    ensures ToUpper(LevelName(Info)) == "INFO"
    ensures ToUpper(LevelName(Warn)) == "WARN"
    ensures ToUpper(LevelName(Error)) == "ERROR"
    ensures ToUpper(LevelName(Silent)) == "SILENT"
  {
  }

  /** The shape of `[ts] [TAG] text\n` when none of its parts holds a newline. */
  lemma LineShape(timestamp: string, tag: string, text: string)
    requires '\n' !in timestamp && '\n' !in tag && '\n' !in text
    ensures var line := "[" + timestamp + "] [" + tag + "] " + text + "\n";
      && |line| > |timestamp| + 2
      && line[..|timestamp| + 2] == "[" + timestamp + "]"
      && line[|line| - 1] == '\n'
      && '\n' !in line[..|line| - 1]
      && line[|line| - 1 - |text| .. |line| - 1] == text
  {
  }

  /**
   * An entry is one line: it begins with the bracketed timestamp, ends with its only
   * newline (given a timestamp and message without one), and carries the message
   * with colour codes removed right before that newline.
   */
  lemma FormatLogOneLine(level: LogLevel, timestamp: string, message: string)
    requires '\n' !in timestamp && '\n' !in message
    ensures var line := FormatLog(level, timestamp, message);
      && |line| > |timestamp| + 2
      && line[..|timestamp| + 2] == "[" + timestamp + "]"
      && line[|line| - 1] == '\n'
      && '\n' !in line[..|line| - 1]
      && line[|line| - 1 - |StripAnsi(message)| .. |line| - 1] == StripAnsi(message)
  {
    StripAnsiChars(message);
    LevelTags();
    LineShape(timestamp, ToUpper(LevelName(level)), StripAnsi(message));
  }

  /** `error`'s entry text: `${msg}\n${options.error.stack}` when an error is passed, else `msg`. */
  datatype ErrorValue = ErrorValue(stack: Option<string>)

  function ErrorText(msg: string, error: Option<ErrorValue>): (text: string)
    ensures |msg| <= |text| && text[..|msg|] == msg
    ensures text == msg <==> error.None?
    ensures error.Some? ==> text[|msg|] == '\n' && text[|msg| + 1..] == error.value.stack.GetOr("undefined")
  {
    match error
    case None => msg
    case Some(e) => msg + "\n" + e.stack.GetOr("undefined")
  }

  // ---------------------------------------------------------------------------
  // The write queue and the log file
  // ---------------------------------------------------------------------------

  /** `logsToWrite.join('')`. */
  function Join(entries: seq<string>): string {
    if entries == [] then "" else entries[0] + Join(entries[1..])
  }

  /** Joining two batches one after the other writes what joining them together writes. */
  lemma {:induction false} JoinAppend(a: seq<string>, b: seq<string>)
    ensures Join(a + b) == Join(a) + Join(b)
  {
    if a != [] {
      assert (a + b)[0] == a[0] && (a + b)[1..] == a[1..] + b;
      JoinAppend(a[1..], b);
      assert Join(a + b) == a[0] + (Join(a[1..]) + Join(b));
    } else {
      assert a + b == b;
    }
  }

  /** Joined entries keep their lengths: nothing is dropped or padded. */
  lemma {:induction false} JoinLength(entries: seq<string>)
    ensures |Join(entries)| == SumLengths(entries)
  {
    if entries != [] {
      JoinLength(entries[1..]);
    }
  }

  function SumLengths(entries: seq<string>): nat {
    if entries == [] then 0 else |entries[0]| + SumLengths(entries[1..])
  }

  /** The module-level `writeQueue` and `isWriting`, and the contents of the log file. */
  class LogFile {
    var writeQueue: seq<string>
    var isWriting: bool
    var contents: string

    /** Module load: an empty queue, no write in progress, and whatever the file already held. */
    constructor (initial: string)
      ensures writeQueue == [] && !isWriting && contents == initial
    {
      writeQueue := [];
      isWriting := false;
      contents := initial;
    }

    /** `ensureLogDir`: empties the file; if that write fails the file is left as it was. */
    method Clear(succeeds: bool)
      modifies this`contents
      ensures contents == if succeeds then "" else old(contents)
    {
      if succeeds {
        contents := "";
      }
    }

    /** `queueLog`: the entry goes to the back of the queue. */
    method QueueLog(message: string)
      modifies this`writeQueue
      ensures writeQueue == old(writeQueue) + [message]
    {
      writeQueue := writeQueue + [message];
    }

    /**
     * `flushLogs`, as one step: nothing while a write is in progress or the queue is empty;
     * otherwise the queue is taken and emptied and its entries, joined in order, are
     * appended to the file. A failed append loses that batch.
     */
    method FlushLogs(appendSucceeds: bool)
      modifies this
      ensures old(isWriting) || old(writeQueue) == [] ==> unchanged(this)
      ensures !old(isWriting) && old(writeQueue) != [] ==>
                && writeQueue == [] && !isWriting
                && contents == old(contents) + (if appendSucceeds then Join(old(writeQueue)) else "")
    {
      if isWriting || |writeQueue| == 0 {
        return;
      }
      isWriting := true;
      var logsToWrite := writeQueue;
      writeQueue := [];
      if appendSucceeds {
        contents := contents + Join(logsToWrite);
      }
      isWriting := false;
    }

    /**
     * `flushLogsSync`: appends the joined queue and empties it only when the append
     * succeeds; an empty queue, or a failed append, leaves everything as it was.
     */
    method FlushLogsSync(appendSucceeds: bool)
      modifies this`writeQueue, this`contents
      ensures old(writeQueue) == [] || !appendSucceeds ==> unchanged(this)
      ensures old(writeQueue) != [] && appendSucceeds ==>
                writeQueue == [] && contents == old(contents) + Join(old(writeQueue))
    {
      if |writeQueue| > 0 {
        if appendSucceeds {
          contents := contents + Join(writeQueue);
          writeQueue := [];
        }
      }
    }
  }

  // ---------------------------------------------------------------------------
  // The logger object
  // ---------------------------------------------------------------------------

  /** What reaches the console: a message at a level, or the Error object `error` was given. */
  datatype ConsoleOutput = Message(level: LogLevel, text: string) | ErrorObject(error: ErrorValue)

  /** The object `createViteLogger` returns. */
  class Logger {
    const file: LogFile
    var hasWarned: bool
    ghost var console: seq<ConsoleOutput>
    /** How many warnings `warnOnce` has emitted. */
    ghost var onceWarnings: nat

    ghost predicate Valid()
      reads this
    {
      onceWarnings == if hasWarned then 1 else 0
    }

    /** `createViteLogger`: clears the log file (when that write succeeds) and starts un-warned. */
    constructor (file: LogFile, clearSucceeds: bool)
      modifies file
      ensures this.file == file && Valid()
      ensures !hasWarned && console == [] && onceWarnings == 0
      ensures file.contents == (if clearSucceeds then "" else old(file.contents))
      ensures file.writeQueue == old(file.writeQueue) && file.isWriting == old(file.isWriting)
    {
      this.file := file;
      hasWarned := false;
      console := [];
      onceWarnings := 0;
      new;
      file.Clear(clearSucceeds);
    }

    /** `info(msg)`: the raw message to the console, the formatted line to the queue. */
    method Info(msg: string, timestamp: string)
      modifies this`console, file`writeQueue
      ensures console == old(console) + [Message(LogLevel.Info, msg)]
      ensures file.writeQueue == old(file.writeQueue) + [FormatLog(LogLevel.Info, timestamp, msg)]
    {
      console := console + [Message(LogLevel.Info, msg)];
      file.QueueLog(FormatLog(LogLevel.Info, timestamp, msg));
    }

    /** `warn(msg)`. */
    method Warn(msg: string, timestamp: string)
      modifies this`console, file`writeQueue
      ensures console == old(console) + [Message(LogLevel.Warn, msg)]
      ensures file.writeQueue == old(file.writeQueue) + [FormatLog(LogLevel.Warn, timestamp, msg)]
    {
      console := console + [Message(LogLevel.Warn, msg)];
      file.QueueLog(FormatLog(LogLevel.Warn, timestamp, msg));
    }

    /**
     * `error(msg, options)`: the queued line carries the error's stack after the message
     * when `options.error` is given; the console gets the message and then the error.
     */
    method Error(msg: string, error: Option<ErrorValue>, timestamp: string)
      modifies this`console, file`writeQueue
      ensures console == old(console) + [Message(LogLevel.Error, msg)] + (if error.Some? then [ErrorObject(error.value)] else [])
      ensures file.writeQueue == old(file.writeQueue) + [FormatLog(LogLevel.Error, timestamp, ErrorText(msg, error))]
    {
      var entry := FormatLog(LogLevel.Error, timestamp, ErrorText(msg, error));
      console := console + [Message(LogLevel.Error, msg)];
      if error.Some? {
        console := console + [ErrorObject(error.value)];
      }
      file.QueueLog(entry);
    }

    /** `warnOnce(msg)`: the first call warns and sets `hasWarned`; later calls do nothing. */
    method WarnOnce(msg: string, timestamp: string)
      requires Valid()
      modifies this`hasWarned, this`console, this`onceWarnings, file`writeQueue
      ensures Valid() && hasWarned && onceWarnings <= 1
      ensures old(hasWarned) ==> unchanged(this) && unchanged(file)
      ensures !old(hasWarned) ==>
                && onceWarnings == 1
                && console == old(console) + [Message(LogLevel.Warn, msg)]
                && file.writeQueue == old(file.writeQueue) + [FormatLog(LogLevel.Warn, timestamp, msg)]
    {
      if !hasWarned {
        hasWarned := true;
        onceWarnings := onceWarnings + 1;
        Warn(msg, timestamp);
      }
    }
  }
}
