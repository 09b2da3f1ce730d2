/*
 * The restore worker of Restore.py: `_exec_sql_file` feeds the lines of
 * one file through the scanner while polling the stop flag, and `run`
 * replays the `.sql` files of the extracted archive in name order.
 *
 * The database is an oracle `accepts` that says whether a statement
 * executes without error. The stop flag, set by another thread, is an
 * oracle too: it reads true from poll number `stopFrom` on (a flag that
 * is only ever set stays set, so this covers every interleaving).
 */
module Restore {
  import opened Wrappers
  import opened Seqs
  import Text
  import opened Bytes
  import opened Order
  import opened SqlScanner
  import opened StopFlag
  import opened Progress

  /** The lines the worker sends to the log pane. */
  datatype LogLine =
    | Connecting
    | Extracting
    | Importing(file: string)
    | ExecError(file: string, statement: bytes)
    | StoppedByUser

  /** How `run` ended: `finished_ok`, `finished_error`, or `ask_ui_reset` after a stop. */
  datatype Outcome = Idle | FinishedOk | FinishedError | UiReset

  /** One name of the extracted directory. */
  datatype Entry = Entry(isFile: bool, lines: seq<bytes>)


  /** `f.lower().endswith('.sql')` */
  predicate IsSqlName(name: string)
  {
    EndsWith(Text.Lower(name), ".sql")
  }

  /** The names of `listing` that are regular files with a `.sql` name, in listing order. */
  function SqlEntries(listing: seq<string>, dir: map<string, Entry>): (r: seq<string>)
    ensures forall n :: n in r <==> n in listing && n in dir && dir[n].isFile && IsSqlName(n)
  {
    if |listing| == 0 then []
    else
      var n := listing[|listing| - 1];
      SqlEntries(listing[..|listing| - 1], dir)
        + (if n in dir && dir[n].isFile && IsSqlName(n) then [n] else [])
  }

  /** `files.sort()` on the selected names. */
  function SqlFiles(listing: seq<string>, dir: map<string, Entry>): seq<string>
  {
    Sort(SqlEntries(listing, dir))
  }

  /**
   * Only regular `.sql` files (case-insensitively) are replayed, each once,
   * in ascending name order; the order in which the directory was listed
   * does not matter.
   */
  lemma SqlFilesSelected(listing: seq<string>, listing2: seq<string>, dir: map<string, Entry>)
    requires multiset(listing) == multiset(listing2)
    ensures Sorted(SqlFiles(listing, dir))
    ensures forall n :: n in SqlFiles(listing, dir) <==> n in listing && n in dir && dir[n].isFile && IsSqlName(n)
    ensures SqlFiles(listing, dir) == SqlFiles(listing2, dir)
  {
    var r := SqlFiles(listing, dir);
    forall n ensures n in r <==> n in SqlEntries(listing, dir) {
      assert n in r <==> n in multiset(r);
    }
    SqlEntriesPermutation(listing, listing2, dir);
    SortedUnique(r, SqlFiles(listing2, dir));
  }

  /** Selected names, counted with multiplicity: those of `listing` that pass the test. */
  predicate Selected(n: string, dir: map<string, Entry>)
  {
    n in dir && dir[n].isFile && IsSqlName(n)
  }

  lemma SqlEntriesPermutation(a: seq<string>, b: seq<string>, dir: map<string, Entry>)
    requires multiset(a) == multiset(b)
    ensures multiset(SqlEntries(a, dir)) == multiset(SqlEntries(b, dir))
  {
    forall x ensures multiset(SqlEntries(a, dir))[x] == multiset(SqlEntries(b, dir))[x] {
      SqlEntriesCount(a, dir, x);
      SqlEntriesCount(b, dir, x);
    }
  }

  lemma {:induction false} SqlEntriesCount(a: seq<string>, dir: map<string, Entry>, x: string)
    ensures multiset(SqlEntries(a, dir))[x] == if Selected(x, dir) then multiset(a)[x] else 0
    decreases |a|
  {
    if |a| > 0 {
      var init := a[..|a| - 1];
      assert a == init + [a[|a| - 1]];
      SqlEntriesCount(init, dir, x);
    }
  }

  /**
   * The scanner part of one turn of the line loop of `_exec_sql_file`, on
   * the loop's locals: a `DELIMITER` line only changes the delimiter;
   * any other line is appended and counted, and the buffer is handed out
   * as a statement and cleared when its right-stripped form ends with the
   * delimiter (any of the three tests written in the source).
   */
  method ScanLine(line: bytes, delimiter: bytes, buf: bytes, count: nat, ghost st: Scanner)
    returns (directive: bool, delimiter': bytes, buf': bytes, count': nat, stmt: Option<bytes>)
    requires delimiter == st.delimiter && buf == st.buf && count == st.executed
    ensures directive == IsDirective(line)
    ensures var next := Step(st, line);
            && delimiter' == next.delimiter && buf' == next.buf && count' == next.executed
            && next.statements == st.statements + (if stmt.Some? then [stmt.value] else [])
  {
    delimiter', buf', count', stmt := delimiter, buf, count, None;
    var arg;
    directive, arg := ParseDirective(line);
    if directive {
      delimiter' := arg;
      StepDirective(st, line);
      return;
    }
    buf' := buf' + line;
    var complete := EndsStatement(buf', delimiter');
    if complete {
      stmt := Some(buf');
      StepEmit(st, line);
      buf' := [];
    } else {
      StepPending(st, line);
    }
    count' := count' + 1;
  }

  /** The directive test of `_exec_sql_file` and the delimiter it selects. */
  method ParseDirective(line: bytes) returns (directive: bool, delimiter: bytes)
    ensures directive == IsDirective(line)
    ensures directive ==> delimiter == DirectiveArgument(line) && |delimiter| > 0
  {
    var ls := Strip(line);
    directive := StartsWith(Upper(ls), DirectiveKeyword);
    var field := SecondField(ls);
    delimiter := if field.Some? then field.value else Semicolon;
    if directive {
      DirectiveSplitSucceeds(line);
    }
  }

  /** The emission test of `_exec_sql_file`, with its three alternatives as written. */
  method EndsStatement(buf: bytes, delimiter: bytes) returns (complete: bool)
    ensures complete == Terminates(buf, delimiter)
    ensures complete <==> EndsWith(RStrip(buf), delimiter)
  {
    var t := RStrip(buf);
    complete := EndsWith(t, delimiter + [NL]) || EndsWith(t, delimiter + [CR, NL]) || EndsWith(t, delimiter);
    TerminatesIff(buf, delimiter);
  }

  /** One `ERROR:` log line per statement the database rejected, in order. */
  function ErrorLog(accepts: bytes -> bool, file: string, statements: seq<bytes>): (r: seq<LogLine>)
    ensures |r| <= |statements|
  {
    if |statements| == 0 then []
    else
      var s := statements[|statements| - 1];
      ErrorLog(accepts, file, statements[..|statements| - 1]) + (if accepts(s) then [] else [ExecError(file, s)])
  }

  /**
   * A statement is logged as an error exactly when the database rejected
   * it, and nothing else is logged.
   */
  lemma {:induction false} ErrorLogExact(accepts: bytes -> bool, file: string, statements: seq<bytes>)
    ensures forall l :: l in ErrorLog(accepts, file, statements) <==>
              l.ExecError? && l.file == file && l.statement in statements && !accepts(l.statement)
  {
    if |statements| > 0 {
      var init := statements[..|statements| - 1];
      ErrorLogExact(accepts, file, init);
      assert statements == init + [statements[|statements| - 1]];
    }
  }

  lemma ErrorLogNext(accepts: bytes -> bool, file: string, stmts: seq<bytes>, s: bytes)
    ensures ErrorLog(accepts, file, stmts + [s])
            == ErrorLog(accepts, file, stmts) + (if accepts(s) then [] else [ExecError(file, s)])
  {
    assert (stmts + [s])[..|stmts|] == stmts;
  }

  /**
   * The per-file progress values emitted while reading `lines` of a file
   * of `total` lines: one per non-directive line, none at all when the
   * line count is zero.
   */
  function ProgressTrace(lines: seq<bytes>, total: nat): (r: seq<int>)
    ensures |r| <= |lines|
  {
    if |lines| == 0 then [] else ProgressTrace(lines[..|lines| - 1], total) + TraceTail(lines, total)
  }

  /** The value emitted for the last of `lines`. */
  function TraceTail(lines: seq<bytes>, total: nat): (r: seq<int>)
    requires |lines| > 0
    ensures |r| <= 1
  {
    if total == 0 || IsDirective(lines[|lines| - 1]) then [] else [FileProgress(Scan(lines).executed, total)]
  }

  lemma TraceNext(lines: seq<bytes>, i: nat, total: nat)
    requires i < |lines|
    ensures ProgressTrace(lines[..i + 1], total)
            == ProgressTrace(lines[..i], total)
               + (if total == 0 || IsDirective(lines[i]) then [] else [FileProgress(Step(Scan(lines[..i]), lines[i]).executed, total)])
  {
    assert lines[..i + 1][..i] == lines[..i];
    ScanNext(lines, i);
  }

  /** Whether the stop flag is seen at one of the polls before the first `n` lines. */
  predicate StopsWithin(stopLine: Option<nat>, n: nat)
  {
    stopLine.Some? && stopLine.value < n
  }

  /** How many of `n` lines are read when the flag is first seen before line `stopLine`. */
  function LinesRead(stopLine: Option<nat>, n: nat): (k: nat)
    ensures k <= n
  {
    if StopsWithin(stopLine, n) then stopLine.value else n
  }

  /**
   * The line loop of `_exec_sql_file`. The stop flag is first seen true
   * at the poll before line `stopLine`, if ever; `accepts` says whether
   * the database executes a statement. Returns whether the file was read
   * to its end, the statements sent to the database, the error lines
   * logged and the per-file progress values emitted.
   */
  method ExecLines(file: string, lines: seq<bytes>, stopLine: Option<nat>, accepts: bytes -> bool)
    returns (ok: bool, stmts: seq<bytes>, log: seq<LogLine>, progress: seq<int>)
    ensures FileEffect(ok, stmts, log, progress) == ReadFile(file, lines, stopLine, accepts)
  {
    progress := [0];
    var delimiter: bytes, buf: bytes, count: nat := Semicolon, [], 0;
    stmts, log := [], [];
    var i := 0;
    LinesDoneStart(file, lines, accepts);
    while i < |lines| && stopLine != Some(i)
      invariant !StopsWithin(stopLine, i)
      invariant LinesDone(file, lines, accepts, i, Scanner(delimiter, buf, count, stmts), log, progress)
    {
      NoStopNext(stopLine, i);
      delimiter, buf, count, stmts, log, progress := ReadLine(file, lines, i, accepts, delimiter, buf, count, stmts, log, progress);
      i := i + 1;
    }
    LinesReadAt(stopLine, |lines|, i);
    FileRead(file, lines, stopLine, accepts, i, Scanner(delimiter, buf, count, stmts), log, progress);
    ok := i == |lines|;
  }

  /** Before the first line: the scanner at its start, no error lines, the progress value 0. */
  lemma LinesDoneStart(file: string, lines: seq<bytes>, accepts: bytes -> bool)
    ensures LinesDone(file, lines, accepts, 0, Scanner(Semicolon, [], 0, []), [], [0])
  {
    assert lines[..0] == [];
  }

  /** A line the flag is not seen before extends the stretch read without a stop. */
  lemma NoStopNext(stopLine: Option<nat>, i: nat)
    requires !StopsWithin(stopLine, i) && stopLine != Some(i)
    ensures !StopsWithin(stopLine, i + 1)
  {
  }

  /** The loop leaves off at the line where the flag is first seen, or at the end. */
  lemma LinesReadAt(stopLine: Option<nat>, n: nat, i: nat)
    requires i <= n && !StopsWithin(stopLine, i) && (i == n || stopLine == Some(i))
    ensures i == LinesRead(stopLine, n)
  {
  }

  /** The outputs after the lines read are what reading the file gives. */
  lemma FileRead(file: string, lines: seq<bytes>, stopLine: Option<nat>, accepts: bytes -> bool, i: nat,
                 st: Scanner, log: seq<LogLine>, progress: seq<int>)
    requires LinesDone(file, lines, accepts, i, st, log, progress) && i == LinesRead(stopLine, |lines|)
    ensures FileEffect(i == |lines|, st.statements, log, progress) == ReadFile(file, lines, stopLine, accepts)
  {
  }

  /**
   * The outputs of the line loop after the first `i` lines: the scanner
   * state, the error lines of the statements sent, the progress values.
   */
  ghost predicate LinesDone(file: string, lines: seq<bytes>, accepts: bytes -> bool, i: nat,
                            st: Scanner, log: seq<LogLine>, progress: seq<int>)
  {
    i <= |lines| && Scan(lines[..i]) == st && log == ErrorLog(accepts, file, st.statements)
    && progress == [0] + ProgressTrace(lines[..i], |lines|)
  }

  /**
   * One turn of the line loop of `_exec_sql_file` after the stop poll:
   * the scanner step, the statement it completes executed (a failure is
   * only logged), and the progress value for a non-directive line.
   */
  method ReadLine(file: string, lines: seq<bytes>, i: nat, accepts: bytes -> bool,
                  delimiter: bytes, buf: bytes, count: nat, stmts: seq<bytes>, log: seq<LogLine>, progress: seq<int>)
    returns (delimiter': bytes, buf': bytes, count': nat, stmts': seq<bytes>, log': seq<LogLine>, progress': seq<int>)
    requires i < |lines|
    requires LinesDone(file, lines, accepts, i, Scanner(delimiter, buf, count, stmts), log, progress)
    ensures LinesDone(file, lines, accepts, i + 1, Scanner(delimiter', buf', count', stmts'), log', progress')
  {
    var totalLines := |lines|;
    ghost var st := Scan(lines[..i]);
    var directive, stmt;
    directive, delimiter', buf', count', stmt := ScanLine(lines[i], delimiter, buf, count, st);
    stmts', log', progress' := stmts, log, progress;
    if stmt.Some? {
      ErrorLogNext(accepts, file, stmts, stmt.value);
      if !accepts(stmt.value) {
        log' := log' + [ExecError(file, stmt.value)];
      }
      stmts' := stmts' + [stmt.value];
    }
    if !directive && totalLines > 0 {
      var p := count' * 100 / totalLines;
      p := if p > 100 then 100 else if p < 0 then 0 else p;
      progress' := progress' + [p];
    }
    ScanNext(lines, i);
    TraceNext(lines, i, totalLines);
    AppendAssoc([0], ProgressTrace(lines[..i], totalLines),
                if totalLines == 0 || directive then [] else [FileProgress(count', totalLines)]);
  }

  /** What reading one file did to the worker's outputs. */
  datatype FileEffect = FileEffect(ok: bool, statements: seq<bytes>, log: seq<LogLine>, progress: seq<int>)

  /**
   * Reading `lines` with the stop flag first seen before line `stopLine`:
   * whether the file was read to its end, the statements sent, the error
   * lines logged and the per-file progress values emitted.
   */
  function ReadFile(file: string, lines: seq<bytes>, stopLine: Option<nat>, accepts: bytes -> bool): FileEffect
  {
    var read := LinesRead(stopLine, |lines|);
    var stmts := Scan(lines[..read]).statements;
    FileEffect(!StopsWithin(stopLine, |lines|), stmts, ErrorLog(accepts, file, stmts),
               [0] + ProgressTrace(lines[..read], |lines|))
  }

  datatype Halt = Going | LineStop | FileStop

  /** The outputs of the file loop of `run` so far, and whether it has stopped. */
  datatype Replay = Replay(polls: nat, done: nat, statements: seq<bytes>, log: seq<LogLine>,
                           fileProgress: seq<int>, overall: seq<int>, halt: Halt)

  /** The lines of an extracted file; a name the listing gave that is gone reads as empty. */
  function LinesOf(dir: map<string, Entry>, file: string): seq<bytes>
  {
    if file in dir then dir[file].lines else []
  }

  /**
   * What the file loop of `run` works with besides the file names: the
   * stop flag, the database, the extracted directory and `total`, the
   * divisor of the overall progress.
   */
  datatype Env = Env(stopFrom: Option<nat>, accepts: bytes -> bool, dir: map<string, Entry>, total: nat)

  /** The polls `_exec_sql_file` makes on `n` lines when it first sees the flag before line `stopLine`. */
  function PollsOf(stopLine: Option<nat>, n: nat): nat
  {
    if stopLine.Some? then stopLine.value + 1 else n
  }

  /** One turn of the file loop of `run`. */
  function NextFile(env: Env, r: Replay, file: string): Replay
    requires env.total > 0
  {
    if r.halt != Going then r
    else if StopAt(env.stopFrom, r.polls) then
      r.(polls := r.polls + 1, log := r.log + [StoppedByUser], halt := FileStop)
    else
      var lines := LinesOf(env.dir, file);
      var k := StopWithin(env.stopFrom, r.polls + 1, |lines|);
      var e := ReadFile(file, lines, k, env.accepts);
      Replay(r.polls + 1 + PollsOf(k, |lines|), r.done + 1, r.statements + e.statements, r.log + ([Importing(file)] + e.log),
             r.fileProgress + e.progress,
             r.overall + [Percent(r.done, env.total), Percent(r.done + 1, env.total)],
             if e.ok then Going else LineStop)
  }

  /** The file loop of `run` over `files`, its first poll numbered `from`. */
  function ReplayFiles(env: Env, files: seq<string>, from: nat): Replay
    requires env.total > 0
  {
    if |files| == 0 then Replay(from, 0, [], [], [], [], Going)
    else NextFile(env, ReplayFiles(env, files[..|files| - 1], from), files[|files| - 1])
  }

  /**
   * The file loop of `run`: the flag is polled before each file; a stop
   * seen there ends the loop with "stopped by user", and a stop seen
   * inside a file ends it after that file.
   */
  method ImportFiles(env: Env, files: seq<string>, from: nat) returns (r: Replay)
    requires env.total > 0
    ensures r == ReplayFiles(env, files, from)
  {
    r := Replay(from, 0, [], [], [], [], Going);
    var i := 0;
    while i < |files| && r.halt == Going
      invariant 0 <= i <= |files|
      invariant r == ReplayFiles(env, files[..i], from)
    {
      ReplayNext(env, files, from, i);
      r := FileTurn(env, r, files[i]);
      i := i + 1;
    }
    if r.halt == Going {
      assert files[..|files|] == files;
    } else {
      ReplayHalted(env, files, from, i);
    }
  }

  /**
   * One turn of the file loop of `run`: poll the flag (a stop logs
   * "stopped by user" and ends the loop), otherwise report the overall
   * progress, replay the file and report the overall progress again.
   */
  method FileTurn(env: Env, r: Replay, file: string) returns (r': Replay)
    requires env.total > 0 && r.halt == Going
    ensures r' == NextFile(env, r, file)
  {
    if StopAt(env.stopFrom, r.polls) {
      return r.(polls := r.polls + 1, log := r.log + [StoppedByUser], halt := FileStop);
    }
    var before := r.done * 100 / env.total;
    var lines := if file in env.dir then env.dir[file].lines else [];
    var stopLine := StopWithin(env.stopFrom, r.polls + 1, |lines|);
    var ok, stmts, elog, progress := ExecLines(file, lines, stopLine, env.accepts);
    var after := (r.done + 1) * 100 / env.total;
    r' := Replay(r.polls + 1 + PollsOf(stopLine, |lines|), r.done + 1,
                 r.statements + stmts, r.log + ([Importing(file)] + elog), r.fileProgress + progress,
                 r.overall + [before, after], if ok then Going else LineStop);
  }

  lemma ReplayNext(env: Env, files: seq<string>, from: nat, i: nat)
    requires env.total > 0 && i < |files|
    ensures ReplayFiles(env, files[..i + 1], from) == NextFile(env, ReplayFiles(env, files[..i], from), files[i])
  {
    assert files[..i + 1][..i] == files[..i];
  }

  /** Once the replay has halted, the later files change nothing. */
  lemma ReplayHalted(env: Env, files: seq<string>, from: nat, i: nat)
    requires env.total > 0 && i <= |files|
    requires ReplayFiles(env, files[..i], from).halt != Going
    ensures ReplayFiles(env, files, from) == ReplayFiles(env, files[..i], from)
  {
    HaltedStays(env, files, from, i);
  }

  lemma {:induction false} HaltedStays(env: Env, files: seq<string>, from: nat, i: nat)
    requires env.total > 0 && i <= |files|
    requires ReplayFiles(env, files[..i], from).halt != Going
    ensures ReplayFiles(env, files, from) == ReplayFiles(env, files[..i], from)
    decreases |files|
  {
    if i < |files| {
      var init := files[..|files| - 1];
      assert init[..i] == files[..i];
      HaltedStays(env, init, from, i);
    } else {
      assert files[..i] == files;
    }
  }

  /**
   * The overall bar: two values per replayed file, the percentage of the
   * files done before it and after it, so the value at `i` is that of
   * `(i + 1) / 2` files.
   */
  lemma {:induction false} ReplayShape(env: Env, files: seq<string>, from: nat)
    requires env.total > 0
    ensures var r := ReplayFiles(env, files, from);
            && r.done <= |files| && |r.overall| == 2 * r.done
            && forall i :: 0 <= i < |r.overall| ==> r.overall[i] == Percent((i + 1) / 2, env.total)
  {
    if |files| > 0 {
      var init := files[..|files| - 1];
      ReplayShape(env, init, from);
      var prev := ReplayFiles(env, init, from);
      var r := ReplayFiles(env, files, from);
      TurnOverall(env, prev, files[|files| - 1]);
      if r.done != prev.done {
        forall i | 0 <= i < |r.overall| ensures r.overall[i] == Percent((i + 1) / 2, env.total) {
          if i >= |prev.overall| {
            assert i == 2 * prev.done || i == 2 * prev.done + 1;
          }
        }
      }
    }
  }

  /** A file turn either changes nothing on the overall bar or adds the two values of one more file. */
  lemma TurnOverall(env: Env, r: Replay, file: string)
    requires env.total > 0
    ensures var r' := NextFile(env, r, file);
            || (r'.done == r.done && r'.overall == r.overall)
            || (r'.done == r.done + 1 && r'.overall == r.overall + [Percent(r.done, env.total), Percent(r.done + 1, env.total)])
  {
  }

  /**
   * With `total = max(1, n)` for `n` files, the overall bar never goes
   * back and stays within 0..100; when every file was replayed it ends at 100.
   */
  lemma OverallBar(env: Env, files: seq<string>, from: nat)
    requires env.total > 0 && |files| <= env.total
    ensures var r := ReplayFiles(env, files, from);
            && (forall i, j :: 0 <= i <= j < |r.overall| ==> r.overall[i] <= r.overall[j] <= 100)
            && |r.overall| == 2 * r.done && (r.done == env.total ==> r.overall[|r.overall| - 1] == 100)
  {
    ReplayShape(env, files, from);
    var r := ReplayFiles(env, files, from);
    forall i, j | 0 <= i <= j < |r.overall| ensures r.overall[i] <= r.overall[j] <= 100 {
      PercentMonotone((i + 1) / 2, (j + 1) / 2, env.total);
    }
  }

  /** The statements of each of `files`, read whole. */
  function FileStatements(dir: map<string, Entry>, files: seq<string>): (r: seq<seq<bytes>>)
    ensures |r| == |files|
  {
    if |files| == 0 then []
    else
      var n := |files| - 1;
      FileStatements(dir, files[..n]) + [Scan(LinesOf(dir, files[n])).statements]
  }

  /** Entry `i` of `FileStatements` holds the statements of file `i`. */
  lemma {:induction false} FileStatementsAt(dir: map<string, Entry>, files: seq<string>, i: nat)
    requires i < |files|
    ensures FileStatements(dir, files)[i] == Scan(LinesOf(dir, files[i])).statements
    decreases |files|
  {
    var n := |files| - 1;
    if i < n {
      FileStatementsAt(dir, files[..n], i);
      assert files[..n][i] == files[i];
    }
  }

  /**
   * Without a stop, every file is replayed to its end: the statements
   * sent are those the scanner cuts from each file in turn, and a failed
   * statement only adds an error line.
   */
  lemma {:induction false} ReplayNoStop(env: Env, files: seq<string>, from: nat)
    requires env.total > 0 && env.stopFrom.None?
    ensures var r := ReplayFiles(env, files, from);
            && r.halt == Going && r.done == |files|
            && r.statements == Flatten(FileStatements(env.dir, files))
  {
    if |files| > 0 {
      var init := files[..|files| - 1];
      var file := files[|files| - 1];
      ReplayNoStop(env, init, from);
      var r0 := ReplayFiles(env, init, from);
      var lines := LinesOf(env.dir, file);
      assert StopWithin(env.stopFrom, r0.polls + 1, |lines|) == None;
      ReadFileWhole(file, lines, env.accepts);
      assert ReplayFiles(env, files, from) == NextFile(env, r0, file);
      FlattenSnoc(FileStatements(env.dir, init), Scan(lines).statements);
    }
  }

  /** A file read without a stop is read whole. */
  lemma ReadFileWhole(file: string, lines: seq<bytes>, accepts: bytes -> bool)
    ensures ReadFile(file, lines, None, accepts)
            == FileEffect(true, Scan(lines).statements, ErrorLog(accepts, file, Scan(lines).statements),
                          [0] + ProgressTrace(lines, |lines|))
  {
    assert lines[..|lines|] == lines;
  }

  /**
   * A file whose loop sees the flag before line `k`: the file is not
   * finished and only the statements completed by the first `k` lines are sent.
   */
  lemma ReadFileStopped(file: string, lines: seq<bytes>, k: nat, accepts: bytes -> bool)
    requires k < |lines|
    ensures var e := ReadFile(file, lines, Some(k), accepts);
            !e.ok && e.statements == Scan(lines[..k]).statements && |e.progress| <= k + 1
  {
  }

  /**
   * The restore worker. Its outputs (the signals it emits) are kept as
   * the sequences the UI has received; `polls` counts the reads of the
   * stop flag so far.
   */
  class RestoreWorker {
    /** The first poll at which the stop flag reads true, if any. */
    const stopFrom: Option<nat>
    /** Whether the database executes a statement without raising. */
    const accepts: bytes -> bool

    var polls: nat
    var executed: seq<bytes>
    var log: seq<LogLine>
    var fileProgress: seq<int>
    var overallProgress: seq<int>
    var outcome: Outcome

    constructor(stopFrom: Option<nat>, accepts: bytes -> bool)
      ensures this.stopFrom == stopFrom && this.accepts == accepts
      ensures polls == 0 && executed == [] && log == [] && fileProgress == [] && overallProgress == []
      ensures outcome == Idle
    {
      this.stopFrom := stopFrom;
      this.accepts := accepts;
      polls := 0;
      executed := [];
      log := [];
      fileProgress := [];
      overallProgress := [];
      outcome := Idle;
    }

    /**
     * `run`. `connected` says whether the connection succeeded and
     * `extracted` whether the archive could be extracted (either failure
     * ends the run with `finished_error`); `listing` is the order in which
     * the directory was listed and `dir` its contents. A stop seen before
     * a file ends the run with the UI reset; otherwise both bars end at 100.
     */
    method Run(connected: bool, extracted: bool, listing: seq<string>, dir: map<string, Entry>)
      modifies this
      ensures !connected ==>
                log == old(log) + [Connecting] && outcome == FinishedError && executed == old(executed)
                && polls == old(polls) && fileProgress == old(fileProgress) && overallProgress == old(overallProgress)
      ensures connected && !extracted ==>
                log == old(log) + [Connecting, Extracting] && outcome == FinishedError && executed == old(executed)
                && polls == old(polls) && fileProgress == old(fileProgress) && overallProgress == old(overallProgress)
      ensures connected && extracted ==>
                var files := SqlFiles(listing, dir);
                var r := ReplayFiles(Env(stopFrom, accepts, dir, if |files| == 0 then 1 else |files|), files, old(polls));
                var tail := if r.halt == FileStop then [] else [100];
                polls == r.polls && executed == old(executed) + r.statements
                && log == old(log) + [Connecting, Extracting] + r.log
                && fileProgress == old(fileProgress) + r.fileProgress + tail
                && overallProgress == old(overallProgress) + r.overall + tail
                && outcome == (if r.halt == FileStop then UiReset else FinishedOk)
    {
      log := log + [Connecting];
      if !connected {
        outcome := FinishedError;
        return;
      }
      log := log + [Extracting];
      if !extracted {
        outcome := FinishedError;
        return;
      }
      Import(SqlFiles(listing, dir), dir);
    }

    /** The part of `run` after extraction, on the sorted `.sql` names `files`. */
    method Import(files: seq<string>, dir: map<string, Entry>)
      modifies this`polls, this`executed, this`log, this`fileProgress, this`overallProgress, this`outcome
      ensures var r := ReplayFiles(Env(stopFrom, accepts, dir, if |files| == 0 then 1 else |files|), files, old(polls));
              var tail := if r.halt == FileStop then [] else [100];
              polls == r.polls && executed == old(executed) + r.statements && log == old(log) + r.log
              && fileProgress == old(fileProgress) + r.fileProgress + tail
              && overallProgress == old(overallProgress) + r.overall + tail
              && outcome == (if r.halt == FileStop then UiReset else FinishedOk)
    {
      var total := if |files| == 0 then 1 else |files|;
      var r := ImportFiles(Env(stopFrom, accepts, dir, total), files, polls);
      polls := r.polls;
      executed := executed + r.statements;
      log := log + r.log;
      if r.halt == FileStop {
        fileProgress := fileProgress + r.fileProgress;
        overallProgress := overallProgress + r.overall;
        outcome := UiReset;
      } else {
        fileProgress := fileProgress + r.fileProgress + [100];
        overallProgress := overallProgress + r.overall + [100];
        outcome := FinishedOk;
      }
    }
  }
}
