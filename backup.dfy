/*
 * The backup worker of Backup.py: `run` writes one file per table, view
 * and routine (in that order), polling the stop flag before each object,
 * reports `done * 100 / total_items` after each one, and archives the
 * files when no stop was seen. The archive name comes from `on_start`.
 *
 * The database results (the objects, their DDL and rows) are inputs; the
 * clock is a function from the object's position to its `Date:` text.
 */
module Backup {
  import opened Wrappers
  import opened Seqs
  import Text
  import opened Dump
  import opened StopFlag
  import opened Progress

  /** One object the worker dumps, with what the database returned for it. */
  datatype DbObject =
    | Table(name: string, create: Option<string>, columnRows: seq<(string, string)>, rows: seq<seq<PyValue>>)
    | View(name: string, definition: Option<string>)
    | Routine(name: string, rtype: string, body: Option<string>)

  datatype Kind = TableKind | ViewKind | ProcedureKind | FunctionKind

  /** The lines the worker sends to the log pane. */
  datatype LogLine =
    | Dumping(position: nat, total: nat, kind: Kind, name: string)
    | StoppedByUser
    | Completed

  /** How `run` ended: `finished_ok` with the archive, `finished_error`, or `ask_ui_reset` after a stop. */
  datatype Outcome = Idle | FinishedOk | FinishedError | UiReset

  function KindOf(obj: DbObject): Kind
  {
    match obj
    case Table(_, _, _, _) => TableKind
    case View(_, _) => ViewKind
    case Routine(_, rtype, _) => if IsProcedure(rtype) then ProcedureKind else FunctionKind
  }

  /** The name of the file written for an object. */
  function FileName(obj: DbObject): string
  {
    match obj
    case Table(t, _, _, _) => TableFileName(t)
    case View(v, _) => ViewFileName(v)
    case Routine(r, rtype, _) => RoutineFileName(r, rtype)
  }

  /** What the file texts depend on besides the object: the header values, the clock and the decoders. */
  datatype Writer = Writer(src: Source, clock: nat -> string, codecs: Codecs)

  /** The text of the file written for an object, the `position`-th one. */
  function FileText(w: Writer, position: nat, obj: DbObject): string
  {
    var now := w.clock(position);
    match obj
    case Table(t, create, columnRows, rows) => TableFile(w.src, now, t, create, rows, ColumnsOf(columnRows), w.codecs)
    case View(v, definition) => ViewFile(w.src, now, v, definition)
    case Routine(r, rtype, body) => RoutineFile(w.src, now, r, rtype, body)
  }

  /**
   * What the object loops work with: the stop flag, `total_items`, and the
   * file text of each object in each position (kept as a function so that
   * the loop's reasoning does not depend on the texts).
   */
  datatype Env = Env(stopFrom: Option<nat>, total: nat, fileText: (nat, DbObject) -> string)

  /** The loop environment of a run that writes with `w`. */
  function EnvOf(stopFrom: Option<nat>, total: nat, w: Writer): Env
  {
    Env(stopFrom, total, (k: nat, obj: DbObject) => FileText(w, k, obj))
  }

  /** `env` writes the texts `w` produces. */
  ghost predicate WritesWith(env: Env, w: Writer)
  {
    forall k: nat, obj: DbObject :: env.fileText(k, obj) == FileText(w, k, obj)
  }

  /**
   * The outputs of the object loops so far: the polls of the flag, the
   * objects done, the files in the temporary directory (a later file of
   * the same name replaces an earlier one), the log, the progress values
   * and whether a stop was seen.
   */
  datatype Outputs = Outputs(polls: nat, done: nat, files: map<string, string>, log: seq<LogLine>,
                       progress: seq<nat>, stopped: bool)

  /** One turn of an object loop. */
  function NextObject(env: Env, d: Outputs, obj: DbObject): Outputs
    requires env.total > 0
  {
    if d.stopped then d
    else if StopAt(env.stopFrom, d.polls) then
      d.(polls := d.polls + 1, log := d.log + [StoppedByUser], stopped := true)
    else
      Outputs(d.polls + 1, d.done + 1, d.files[FileName(obj) := env.fileText(d.done, obj)],
           d.log + [Dumping(d.done + 1, env.total, KindOf(obj), obj.name)],
           d.progress + [Percent(d.done + 1, env.total)], false)
  }

  /** The object loops over `objs`, starting from `start`. */
  function DumpObjects(env: Env, start: Outputs, objs: seq<DbObject>): Outputs
    requires env.total > 0
  {
    if |objs| == 0 then start
    else NextObject(env, DumpObjects(env, start, objs[..|objs| - 1]), objs[|objs| - 1])
  }

  /** One object loop of `run`: poll the flag, then write the object's file. */
  method DumpAll(env: Env, w: Writer, start: Outputs, objs: seq<DbObject>) returns (d: Outputs)
    requires env.total > 0 && WritesWith(env, w)
    ensures d == DumpObjects(env, start, objs)
  {
    d := start;
    var i := 0;
    while i < |objs| && !d.stopped
      invariant 0 <= i <= |objs|
      invariant d == DumpObjects(env, start, objs[..i])
    {
      assert objs[..i + 1][..i] == objs[..i];
      d := ObjectTurn(env, w, d, objs[i]);
      i := i + 1;
    }
    if !d.stopped {
      assert objs[..|objs|] == objs;
    } else {
      StoppedStays(env, start, objs, i);
    }
  }

  /** One turn of an object loop. */
  method ObjectTurn(env: Env, w: Writer, d: Outputs, obj: DbObject) returns (d': Outputs)
    requires env.total > 0 && WritesWith(env, w) && !d.stopped
    ensures d' == NextObject(env, d, obj)
  {
    if StopAt(env.stopFrom, d.polls) {
      StepStop(env, d, obj);
      return d.(polls := d.polls + 1, log := d.log + [StoppedByUser], stopped := true);
    }
    StepGoing(env, d, obj);
    var line := Dumping(d.done + 1, env.total, KindOf(obj), obj.name);
    var text := WriteObject(w, d.done, obj);
    assert text == env.fileText(d.done, obj);
    var done := d.done + 1;
    d' := Outputs(d.polls + 1, done, d.files[FileName(obj) := text], d.log + [line],
                  d.progress + [Percent(done, env.total)], false);
  }

  /** The writes of the file of one object. */
  method WriteObject(w: Writer, position: nat, obj: DbObject) returns (text: string)
    ensures text == FileText(w, position, obj)
  {
    var now := w.clock(position);
    match obj {
      case Table(t, create, columnRows, rows) =>
        text := WriteTable(w.src, now, t, create, columnRows, rows, w.codecs);
      case View(v, definition) =>
        text := ViewFile(w.src, now, v, definition);
      case Routine(r, rtype, body) =>
        text := RoutineFile(w.src, now, r, rtype, body);
    }
  }

  /** Once a stop has been seen, the later objects change nothing. */
  lemma {:induction false} StoppedStays(env: Env, start: Outputs, objs: seq<DbObject>, i: nat)
    requires env.total > 0 && i <= |objs|
    requires DumpObjects(env, start, objs[..i]).stopped
    ensures DumpObjects(env, start, objs) == DumpObjects(env, start, objs[..i])
    decreases |objs|
  {
    if i < |objs| {
      var init := objs[..|objs| - 1];
      assert init[..i] == objs[..i];
      StoppedStays(env, start, init, i);
    } else {
      assert objs[..i] == objs;
    }
  }

  /** The three loops one after the other are one loop over the objects in order. */
  lemma {:induction false} DumpObjectsAppend(env: Env, start: Outputs, a: seq<DbObject>, b: seq<DbObject>)
    requires env.total > 0
    ensures DumpObjects(env, DumpObjects(env, start, a), b) == DumpObjects(env, start, a + b)
    decreases |b|
  {
    if |b| == 0 {
      assert a + b == a;
    } else {
      var init := b[..|b| - 1];
      assert (a + b)[..|a + b| - 1] == a + init;
      DumpObjectsAppend(env, start, a, init);
    }
  }

  // ---------------------------------------------------------------------
  // What the object loops promise
  // ---------------------------------------------------------------------

  /** The progress values after objects `from + 1` to `to`. */
  function PercentTrace(from: nat, to: nat, total: nat): (r: seq<nat>)
    requires total > 0 && from <= to
    ensures |r| == to - from
    ensures forall j :: 0 <= j < |r| ==> r[j] == Percent(from + j + 1, total)
  {
    seq<nat>(to - from, j requires 0 <= j < to - from => Percent(from + j + 1, total))
  }

  /** The log lines of the objects `objs[..n]`, the first numbered `from + 1`. */
  function DumpingLines(objs: seq<DbObject>, n: nat, from: nat, total: nat): (r: seq<LogLine>)
    requires n <= |objs|
    ensures |r| == n
  {
    if n == 0 then []
    else DumpingLines(objs, n - 1, from, total) + [Dumping(from + n, total, KindOf(objs[n - 1]), objs[n - 1].name)]
  }

  /** Line `j` names object `j` with its position `from + j + 1` out of `total`. */
  lemma {:induction false} DumpingLinesAt(objs: seq<DbObject>, n: nat, from: nat, total: nat, j: nat)
    requires j < n <= |objs|
    ensures DumpingLines(objs, n, from, total)[j] == Dumping(from + j + 1, total, KindOf(objs[j]), objs[j].name)
  {
    if j < n - 1 {
      DumpingLinesAt(objs, n - 1, from, total, j);
    }
  }

  /** The lines of the first `n` objects do not depend on the objects after them. */
  lemma {:induction false} DumpingLinesPrefix(objs: seq<DbObject>, n: nat, from: nat, total: nat)
    requires n < |objs|
    ensures DumpingLines(objs[..|objs| - 1], n, from, total) == DumpingLines(objs, n, from, total)
  {
    if n > 0 {
      DumpingLinesPrefix(objs, n - 1, from, total);
      assert objs[..|objs| - 1][n - 1] == objs[n - 1];
    }
  }

  /** A turn that polls the flag unset writes the object and counts it. */
  lemma StepGoing(env: Env, d: Outputs, obj: DbObject)
    requires env.total > 0 && !d.stopped && !StopAt(env.stopFrom, d.polls)
    ensures var d' := NextObject(env, d, obj);
            && !d'.stopped && d'.polls == d.polls + 1 && d'.done == d.done + 1
            && d'.progress == d.progress + [Percent(d.done + 1, env.total)]
            && d'.log == d.log + [Dumping(d.done + 1, env.total, KindOf(obj), obj.name)]
            && d'.files == d.files[FileName(obj) := env.fileText(d.done, obj)]
  {
  }

  /** A turn that sees the flag set only logs the stop. */
  lemma StepStop(env: Env, d: Outputs, obj: DbObject)
    requires env.total > 0 && !d.stopped && StopAt(env.stopFrom, d.polls)
    ensures NextObject(env, d, obj) == d.(polls := d.polls + 1, log := d.log + [StoppedByUser], stopped := true)
  {
  }

  /**
   * The object loops from a state without a stop: the flag is polled once
   * per object; if poll `start.polls + k` is the first to see it, `k`
   * objects are done, otherwise all of them are.
   */
  lemma {:induction false} DumpCounts(env: Env, start: Outputs, objs: seq<DbObject>)
    requires env.total > 0 && !start.stopped
    ensures var d := DumpObjects(env, start, objs);
            var k := StopWithin(env.stopFrom, start.polls, |objs|);
            && d.stopped == k.Some?
            && d.done == start.done + (if k.Some? then k.value else |objs|)
            && d.polls == d.done - start.done + start.polls + (if k.Some? then 1 else 0)
  {
    if |objs| > 0 {
      var init := objs[..|objs| - 1];
      DumpCounts(env, start, init);
      StopWithinNext(env.stopFrom, start.polls, |init|);
      var prev := DumpObjects(env, start, init);
      if !prev.stopped {
        if StopAt(env.stopFrom, prev.polls) {
          StepStop(env, prev, objs[|init|]);
        } else {
          StepGoing(env, prev, objs[|init|]);
        }
      }
    }
  }

  /** Each object done adds `done * 100 / total` to the progress values. */
  lemma {:induction false} DumpProgress(env: Env, start: Outputs, objs: seq<DbObject>)
    requires env.total > 0 && !start.stopped
    ensures var d := DumpObjects(env, start, objs);
            start.done <= d.done && d.progress == start.progress + PercentTrace(start.done, d.done, env.total)
  {
    if |objs| > 0 {
      var init := objs[..|objs| - 1];
      DumpProgress(env, start, init);
      var prev := DumpObjects(env, start, init);
      if !prev.stopped {
        if StopAt(env.stopFrom, prev.polls) {
          StepStop(env, prev, objs[|init|]);
        } else {
          StepGoing(env, prev, objs[|init|]);
          PercentTraceNext(start.done, prev.done, env.total);
        }
      }
    }
  }

  lemma PercentTraceNext(from: nat, to: nat, total: nat)
    requires total > 0 && from <= to
    ensures PercentTrace(from, to + 1, total) == PercentTrace(from, to, total) + [Percent(to + 1, total)]
  {
  }

  /** Each object done logs its position and name; a stop logs "stopped by user". */
  lemma {:induction false} DumpLog(env: Env, start: Outputs, objs: seq<DbObject>)
    requires env.total > 0 && !start.stopped
    ensures var d := DumpObjects(env, start, objs);
            start.done <= d.done <= start.done + |objs|
            && (!d.stopped ==> d.done == start.done + |objs|
                               && d.log == start.log + DumpingLines(objs, |objs|, start.done, env.total))
            && (d.stopped ==> d.log == start.log + DumpingLines(objs, d.done - start.done, start.done, env.total)
                                       + [StoppedByUser])
  {
    if |objs| > 0 {
      var init := objs[..|objs| - 1];
      DumpLog(env, start, init);
      var prev := DumpObjects(env, start, init);
      var n := prev.done - start.done;
      var lines := DumpingLines(objs, n, start.done, env.total);
      DumpingLinesPrefix(objs, n, start.done, env.total);
      LogTurn(env, prev, objs[|init|]);
      if !prev.stopped && !StopAt(env.stopFrom, prev.polls) {
        var x := Dumping(start.done + n + 1, env.total, KindOf(objs[n]), objs[n].name);
        assert DumpingLines(objs, n + 1, start.done, env.total) == lines + [x];
        AppendAssoc(start.log, lines, [x]);
      }
    }
  }

  /** What one turn does to the log, the count and the stop. */
  lemma LogTurn(env: Env, d: Outputs, obj: DbObject)
    requires env.total > 0
    ensures var d' := NextObject(env, d, obj);
            var going := !d.stopped && !StopAt(env.stopFrom, d.polls);
            && d'.stopped == (d.stopped || StopAt(env.stopFrom, d.polls))
            && d'.done == (if going then d.done + 1 else d.done)
            && d'.log == (if d.stopped then d.log
                          else if going then d.log + [Dumping(d.done + 1, env.total, KindOf(obj), obj.name)]
                          else d.log + [StoppedByUser])
  {
  }

  /** Over the objects of a run, the progress values never decrease and stay within 0..100. */
  lemma ProgressShape(total: nat, done: nat)
    requires 0 < total && done <= total
    ensures var t := PercentTrace(0, done, total);
            (forall j :: 0 <= j < |t| ==> t[j] <= 100)
            && (forall i, j :: 0 <= i <= j < |t| ==> t[i] <= t[j])
            && (done == total ==> t[|t| - 1] == 100)
  {
    var t := PercentTrace(0, done, total);
    forall i, j | 0 <= i <= j < |t| ensures t[i] <= t[j] {
      PercentMonotone(i + 1, j + 1, total);
    }
  }

  /** The names of the files of `objs`. */
  function FileNames(objs: seq<DbObject>): set<string>
  {
    set i | 0 <= i < |objs| :: FileName(objs[i])
  }

  lemma FileNamesSnoc(objs: seq<DbObject>)
    requires |objs| > 0
    ensures FileNames(objs) == FileNames(objs[..|objs| - 1]) + {FileName(objs[|objs| - 1])}
  {
    var init := objs[..|objs| - 1];
    forall x | x in FileNames(objs) ensures x in FileNames(init) + {FileName(objs[|objs| - 1])} {
      var i :| 0 <= i < |objs| && FileName(objs[i]) == x;
      if i < |init| { assert init[i] == objs[i]; }
    }
    forall x | x in FileNames(init) ensures x in FileNames(objs) {
      var i :| 0 <= i < |init| && FileName(init[i]) == x;
      assert objs[i] == init[i];
    }
  }

  /** Without a stop, the temporary directory holds exactly the files named after the objects. */
  lemma {:induction false} DumpFileNames(env: Env, start: Outputs, objs: seq<DbObject>)
    requires env.total > 0 && !start.stopped
    requires StopWithin(env.stopFrom, start.polls, |objs|).None?
    ensures DumpObjects(env, start, objs).files.Keys == start.files.Keys + FileNames(objs)
  {
    if |objs| > 0 {
      var init := objs[..|objs| - 1];
      var last := objs[|objs| - 1];
      StopWithinNext(env.stopFrom, start.polls, |init|);
      DumpFileNames(env, start, init);
      DumpCounts(env, start, init);
      var prev := DumpObjects(env, start, init);
      assert DumpObjects(env, start, objs).files == prev.files[FileName(last) := env.fileText(start.done + |init|, last)];
      FileNamesSnoc(objs);
    }
  }

  /** No two objects share a file name. */
  predicate DistinctNames(objs: seq<DbObject>)
  {
    forall i, j :: 0 <= i < j < |objs| ==> FileName(objs[i]) != FileName(objs[j])
  }

  /**
   * Without a stop, and when no two objects share a file name, the file of
   * object `i` holds the text written in position `done + i`.
   */
  lemma {:induction false} DumpFileTexts(env: Env, start: Outputs, objs: seq<DbObject>)
    requires env.total > 0 && !start.stopped && DistinctNames(objs)
    requires StopWithin(env.stopFrom, start.polls, |objs|).None?
    ensures forall i :: 0 <= i < |objs| ==>
              var files := DumpObjects(env, start, objs).files;
              FileName(objs[i]) in files && files[FileName(objs[i])] == env.fileText(start.done + i, objs[i])
  {
    if |objs| > 0 {
      var init := objs[..|objs| - 1];
      var last := objs[|objs| - 1];
      StopWithinNext(env.stopFrom, start.polls, |init|);
      DistinctInit(objs);
      DumpFileTexts(env, start, init);
      DumpCounts(env, start, init);
      var prev := DumpObjects(env, start, init);
      StepGoing(env, prev, last);
      var files := DumpObjects(env, start, objs).files;
      assert files == prev.files[FileName(last) := env.fileText(prev.done, last)];
      forall i | 0 <= i < |objs|
        ensures FileName(objs[i]) in files && files[FileName(objs[i])] == env.fileText(start.done + i, objs[i])
      {
        if i < |init| {
          assert init[i] == objs[i];
          assert FileName(objs[i]) != FileName(last);
        }
      }
    }
  }

  lemma DistinctInit(objs: seq<DbObject>)
    requires |objs| > 0 && DistinctNames(objs)
    ensures DistinctNames(objs[..|objs| - 1])
  {
    var init := objs[..|objs| - 1];
    forall i, j | 0 <= i < j < |init| ensures FileName(init[i]) != FileName(init[j]) {
      assert init[i] == objs[i] && init[j] == objs[j];
    }
  }

  // ---------------------------------------------------------------------
  // The worker
  // ---------------------------------------------------------------------

  /** `max(1, #tables + #views + #routines)`. */
  function TotalItems(n: nat): (total: nat)
    ensures total > 0 && n <= total
    ensures n > 0 ==> total == n
  {
    if n == 0 then 1 else n
  }

  /** The object loops start in a fresh temporary directory, with nothing done. */
  function Fresh(polls: nat): Outputs
  {
    Outputs(polls, 0, map[], [], [], false)
  }

  /**
   * Which database call of `run` raises, if any: the connection, the
   * table-list query, or a query of the object in position `position`
   * (`SHOW CREATE`, `SHOW COLUMNS` or the data `SELECT`). The version,
   * view-list and routine-list queries are caught by the source and
   * cannot end the run.
   */
  datatype Fault = NoFault | ConnectFails | ListFails | QueryFails(position: nat)

  /** The position of the object whose query raises, when there is such an object among `n`. */
  function FailPosition(fault: Fault, n: nat): (k: Option<nat>)
    ensures k.Some? <==> fault.QueryFails? && fault.position < n
    ensures k.Some? ==> k.value == fault.position
  {
    if fault.QueryFails? && fault.position < n then Some(fault.position) else None
  }

  /**
   * The turn of the object whose query raises: the flag is polled and the
   * object's log line sent, then the exception leaves the loops with
   * nothing written, counted or reported for the object.
   */
  function FailingTurn(env: Env, d: Outputs, obj: DbObject): Outputs
    requires env.total > 0
  {
    if d.stopped then d
    else if StopAt(env.stopFrom, d.polls) then
      d.(polls := d.polls + 1, log := d.log + [StoppedByUser], stopped := true)
    else
      d.(polls := d.polls + 1, log := d.log + [Dumping(d.done + 1, env.total, KindOf(obj), obj.name)])
  }

  /** The first `n` log lines do not depend on the objects after them. */
  lemma {:induction false} DumpingLinesTake(objs: seq<DbObject>, m: nat, n: nat, from: nat, total: nat)
    requires n <= m <= |objs|
    ensures DumpingLines(objs[..m], n, from, total) == DumpingLines(objs, n, from, total)
  {
    if n > 0 {
      DumpingLinesTake(objs, m, n - 1, from, total);
      assert objs[..m][n - 1] == objs[n - 1];
    }
  }

  /**
   * A query failing at object `k` before any stop is seen: the objects
   * before it are dumped and logged, the failing object is logged but
   * neither counted nor reported, and the run does not end by a stop.
   */
  lemma QueryFailure(env: Env, start: Outputs, objs: seq<DbObject>, k: nat)
    requires env.total > 0 && !start.stopped && k < |objs|
    requires StopWithin(env.stopFrom, start.polls, k + 1).None?
    ensures var e := FailingTurn(env, DumpObjects(env, start, objs[..k]), objs[k]);
            && !e.stopped && e.done == start.done + k && e.polls == start.polls + k + 1
            && e.log == start.log + DumpingLines(objs, k + 1, start.done, env.total)
            && e.progress == start.progress + PercentTrace(start.done, start.done + k, env.total)
  {
    var d := DumpObjects(env, start, objs[..k]);
    StopWithinNext(env.stopFrom, start.polls, k);
    DumpCounts(env, start, objs[..k]);
    DumpLog(env, start, objs[..k]);
    DumpProgress(env, start, objs[..k]);
    DumpingLinesTake(objs, k, k, start.done, env.total);
    var x := Dumping(start.done + k + 1, env.total, KindOf(objs[k]), objs[k].name);
    assert DumpingLines(objs, k + 1, start.done, env.total) == DumpingLines(objs, k, start.done, env.total) + [x];
    AppendAssoc(start.log, DumpingLines(objs, k, start.done, env.total), [x]);
  }

  /**
   * The backup worker. Its outputs (the signals it emits) are kept as the
   * sequences the UI has received; `polls` counts the reads of the stop
   * flag; `archive` is the content of the ZIP written at the end.
   */
  class BackupWorker {
    /** The first poll at which the stop flag reads true, if any. */
    const stopFrom: Option<nat>
    /** The `Date:` text of the file written in each position. */
    const clock: nat -> string
    const codecs: Codecs

    var polls: nat
    var log: seq<LogLine>
    var progress: seq<nat>
    var archive: Option<map<string, string>>
    var outcome: Outcome

    constructor(stopFrom: Option<nat>, clock: nat -> string, codecs: Codecs)
      ensures this.stopFrom == stopFrom && this.clock == clock && this.codecs == codecs
      ensures polls == 0 && log == [] && progress == [] && archive == None && outcome == Idle
    {
      this.stopFrom := stopFrom;
      this.clock := clock;
      this.codecs := codecs;
      polls := 0;
      log := [];
      progress := [];
      archive := None;
      outcome := Idle;
    }

    /**
     * `run`. `fault` says which database call raises, if any: each ends
     * the run with `finished_error` and no archive. The other parameters
     * are what the database and the settings returned. The flag is polled
     * once after connecting and once before each object; a stop ends the
     * run with the UI reset and no archive.
     */
    method Run(fault: Fault, host: string, port: int, version: Option<string>, database: string,
               tables: seq<DbObject>, views: seq<DbObject>, routines: seq<DbObject>)
      modifies this
      ensures fault == ConnectFails ==>
                outcome == FinishedError && polls == old(polls) && log == old(log)
                && progress == old(progress) && archive == old(archive)
      ensures fault != ConnectFails && StopAt(stopFrom, old(polls)) ==>
                outcome == UiReset && polls == old(polls) + 1 && log == old(log) + [StoppedByUser]
                && progress == old(progress) && archive == old(archive)
      ensures fault == ListFails && !StopAt(stopFrom, old(polls)) ==>
                outcome == FinishedError && polls == old(polls) + 1 && log == old(log)
                && progress == old(progress) && archive == old(archive)
      ensures (fault == NoFault || fault.QueryFails?) && !StopAt(stopFrom, old(polls)) ==>
                var objs := tables + views + routines;
                var env := EnvOf(stopFrom, TotalItems(|objs|), Writer(SourceOf(host, port, version, database), clock, codecs));
                var k := FailPosition(fault, |objs|);
                && (k.None? ==>
                      var d := DumpObjects(env, Fresh(old(polls) + 1), objs);
                      polls == d.polls && progress == old(progress) + d.progress
                      && (d.stopped ==> log == old(log) + d.log && archive == old(archive) && outcome == UiReset)
                      && (!d.stopped ==> log == old(log) + d.log + [Completed] && archive == Some(d.files) && outcome == FinishedOk))
                && (k.Some? ==>
                      var e := FailingTurn(env, DumpObjects(env, Fresh(old(polls) + 1), objs[..k.value]), objs[k.value]);
                      polls == e.polls && progress == old(progress) + e.progress && log == old(log) + e.log
                      && archive == old(archive) && outcome == (if e.stopped then UiReset else FinishedError))
    {
      if fault == ConnectFails {
        outcome := FinishedError;
        return;
      }
      if StopAt(stopFrom, polls) {
        polls := polls + 1;
        log := log + [StoppedByUser];
        outcome := UiReset;
        return;
      }
      polls := polls + 1;
      if fault == ListFails {
        outcome := FinishedError;
        return;
      }
      var objs := tables + views + routines;
      var w := Writer(SourceOf(host, port, version, database), clock, codecs);
      var env := EnvOf(stopFrom, TotalItems(|objs|), w);
      var start := Fresh(polls);
      var k := FailPosition(fault, |objs|);
      if k.None? {
        var d := DumpAll(env, w, start, tables);
        d := DumpAll(env, w, d, views);
        d := DumpAll(env, w, d, routines);
        DumpObjectsAppend(env, start, tables, views);
        DumpObjectsAppend(env, start, tables + views, routines);
        assert d == DumpObjects(env, start, objs);
        Finish(d);
      } else {
        var d := DumpAll(env, w, start, objs[..k.value]);
        var e := FailingTurn(env, d, objs[k.value]);
        polls := e.polls;
        progress := progress + e.progress;
        log := log + e.log;
        outcome := if e.stopped then UiReset else FinishedError;
      }
    }

    /** After the loops: the archive and "completed" without a stop, the UI reset with one. */
    method Finish(d: Outputs)
      modifies this`polls, this`log, this`progress, this`archive, this`outcome
      ensures polls == d.polls && progress == old(progress) + d.progress
      ensures d.stopped ==> log == old(log) + d.log && archive == old(archive) && outcome == UiReset
      ensures !d.stopped ==> log == old(log) + d.log + [Completed] && archive == Some(d.files) && outcome == FinishedOk
    {
      polls := d.polls;
      progress := progress + d.progress;
      if d.stopped {
        log := log + d.log;
        outcome := UiReset;
      } else {
        log := log + d.log + [Completed];
        archive := Some(d.files);
        outcome := FinishedOk;
      }
    }
  }

  // ---------------------------------------------------------------------
  // The archive name (`on_start`)
  // ---------------------------------------------------------------------

  /** The characters `[A-Za-z0-9_-]` the archive name keeps of the system name. */
  predicate IsNameChar(c: char)
  {
    'A' <= c <= 'Z' || 'a' <= c <= 'z' || '0' <= c <= '9' || c == '_' || c == '-'
  }

  /** `str(settings.value("system", "his") or "his")`: an unset or empty setting reads as `his`. */
  function SystemName(stored: Option<string>): string
  {
    if stored.None? || stored.value == "" then "his" else stored.value
  }

  /** `backup_{his}_{stamp}.zip`, with every run of other characters removed from the system name. */
  function ZipName(stored: Option<string>, stamp: string): string
  {
    "backup_" + Filter(SystemName(stored), IsNameChar) + "_" + stamp + ".zip"
  }

  /**
   * The system part of the archive name keeps exactly the allowed
   * characters of the setting, in order, and is already clean:
   * sanitising it again changes nothing.
   */
  lemma ZipNameClean(stored: Option<string>)
    ensures var part := Filter(SystemName(stored), IsNameChar);
            (forall i :: 0 <= i < |part| ==> IsNameChar(part[i])) && Filter(part, IsNameChar) == part
  {
    var part := Filter(SystemName(stored), IsNameChar);
    forall i | 0 <= i < |part| ensures IsNameChar(part[i]) {
      assert part[i] in part;
    }
    FilterIdempotent(SystemName(stored), IsNameChar);
  }

  /** An unset or empty system setting gives `backup_his_{stamp}.zip`. */
  lemma ZipNameDefault(stamp: string)
    ensures ZipName(None, stamp) == ZipName(Some(""), stamp) == "backup_his_" + stamp + ".zip"
  {
    FilterAll("his", IsNameChar);
  }

  /**
   * A system name made only of other characters (a Thai one, say) leaves
   * the part empty; the default `his` is not put back.
   */
  lemma ZipNameAllRemoved(stored: Option<string>, stamp: string)
    requires forall i :: 0 <= i < |SystemName(stored)| ==> !IsNameChar(SystemName(stored)[i])
    ensures ZipName(stored, stamp) == "backup__" + stamp + ".zip"
  {
    FilterNone(SystemName(stored), IsNameChar);
  }
}
