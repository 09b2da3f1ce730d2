/*
 * The export worker of the "16 files" window (Export16Files.py): the
 * safe file name built for each export, the choice of writer by format,
 * and the run over the selected files with its stop check, success
 * count and completion message.  Writing a file is a parameter (`write`
 * says whether writing the given path succeeds); the user's `stop()`
 * from the window's thread is modelled by the index at which it is seen.
 */
module Export16 {
  import opened Wrappers
  import opened Seqs
  import opened Text
  import opened Progress

  // ---------------------------------------------------------------------
  // `safe_filename`
  // ---------------------------------------------------------------------

  /** The characters replaced by `_`. */
  const Unsafe := "<>:\"/\\|?*"

  /** The longest name kept. */
  const MaxNameLength := 50

  predicate IsUnderscore(c: char) { c == '_' }

  /** A character that survives `safe_filename` unchanged. */
  predicate CleanChar(c: char)
  {
    c !in Unsafe && c != ' ' && (c as int) < 256
  }

  /** `s` with every character of `cs` turned into `_`. */
  function MaskedBy(s: string, cs: string): (r: string)
    ensures |r| == |s|
    ensures forall i :: 0 <= i < |s| ==> r[i] == if s[i] in cs then '_' else s[i]
  {
    seq(|s|, i requires 0 <= i < |s| => if s[i] in cs then '_' else s[i])
  }

  /** Replacing one character by a one-character text works character by character. */
  lemma {:induction false} ReplaceCharPointwise(s: string, c: char, d: char)
    ensures |ReplaceChar(s, c, [d])| == |s|
    ensures forall i :: 0 <= i < |s| ==> ReplaceChar(s, c, [d])[i] == if s[i] == c then d else s[i]
  {
    if |s| > 0 {
      ReplaceCharPointwise(s[1..], c, d);
    }
  }

  /** One more pass of the replace loop masks one more character. */
  lemma MaskOneMore(name: string, cs: string, c: char)
    requires c != '_'
    ensures ReplaceChar(MaskedBy(name, cs), c, "_") == MaskedBy(name, cs + [c])
  {
    ReplaceCharPointwise(MaskedBy(name, cs), c, '_');
  }

  /** `''.join(c for c in s if ord(c) < 256 or c in ' ')`. */
  function Latin1(s: string): (r: string)
    ensures forall c :: c in r ==> c in s && (c as int) < 256
  {
    Filter(s, (c: char) => (c as int) < 256 || c == ' ')
  }

  /** `s[:50]`. */
  function Cut(s: string): (r: string)
    ensures |r| <= MaxNameLength && r <= s
  {
    if |s| > MaxNameLength then s[..MaxNameLength] else s
  }

  /** `s.strip('_')`. */
  function StripUnderscores(s: string): (r: string)
    ensures |r| <= |s|
    ensures |r| > 0 ==> r[0] != '_' && r[|r| - 1] != '_'
    ensures forall c :: c in r ==> c in s
  {
    var e := TrimEnd(s, IsUnderscore);
    var r := TrimStart(e, IsUnderscore);
    TrimStartSuffix(e, IsUnderscore);
    assert |r| > 0 ==> r[|r| - 1] == e[|e| - 1];
    r
  }

  /** The name `safe_filename` returns, step by step. */
  function SafeName(name: string): (r: string)
  {
    StripUnderscores(Cut(ReplaceChar(Latin1(MaskedBy(name, Unsafe)), ' ', "_")))
  }

  /**
   * A safe name has none of the unsafe characters and no space, only
   * characters below 256, at most 50 characters, and no `_` at either end.
   */
  lemma SafeNameClean(name: string)
    ensures var r := SafeName(name);
      (forall c :: c in r ==> CleanChar(c)) && |r| <= MaxNameLength &&
      (|r| > 0 ==> r[0] != '_' && r[|r| - 1] != '_')
  {
    var m := MaskedBy(name, Unsafe);
    var l := Latin1(m);
    var u := ReplaceChar(l, ' ', "_");
    ReplaceCharPointwise(l, ' ', '_');
    forall c | c in m ensures c !in Unsafe {
      var i :| 0 <= i < |m| && m[i] == c;
    }
    forall c | c in u ensures CleanChar(c) {
      var i :| 0 <= i < |u| && u[i] == c;
      assert l[i] in l;
    }
    var t := Cut(u);
    forall c | c in t ensures CleanChar(c) {
      var i :| 0 <= i < |t| && t[i] == c;
      assert u[i] in u;
    }
  }

  /** Replacing a character that does not occur changes nothing. */
  lemma {:induction false} ReplaceCharAbsent(s: string, c: char, rep: string)
    requires forall i :: 0 <= i < |s| ==> s[i] != c
    ensures ReplaceChar(s, c, rep) == s
  {
    if |s| > 0 {
      ReplaceCharAbsent(s[1..], c, rep);
    }
  }

  /** A name made only of clean characters, short enough and without `_` at its ends, is kept as it is. */
  lemma SafeNameFixed(s: string)
    requires forall c :: c in s ==> CleanChar(c)
    requires |s| <= MaxNameLength && (|s| > 0 ==> s[0] != '_' && s[|s| - 1] != '_')
    ensures SafeName(s) == s
  {
    forall i | 0 <= i < |s| ensures CleanChar(s[i]) {
      assert s[i] in s;
    }
    assert MaskedBy(s, Unsafe) == s;
    FilterAll(s, (c: char) => (c as int) < 256 || c == ' ');
    ReplaceCharAbsent(s, ' ', "_");
    assert TrimEnd(s, IsUnderscore) == s;
  }

  /** Making a safe name safe again changes nothing. */
  lemma SafeNameIdempotent(name: string)
    ensures SafeName(SafeName(name)) == SafeName(name)
  {
    SafeNameClean(name);
    SafeNameFixed(SafeName(name));
  }

  /** `safe_filename`: the replace loop over the unsafe characters, then the remaining steps. */
  method SafeFilename(name: string) returns (r: string)
    ensures r == SafeName(name)
  {
    var s := name;
    for k := 0 to |Unsafe|
      invariant s == MaskedBy(name, Unsafe[..k])
    {
      MaskOneMore(name, Unsafe[..k], Unsafe[k]);
      assert Unsafe[..k] + [Unsafe[k]] == Unsafe[..k + 1];
      s := ReplaceChar(s, Unsafe[k], "_");
    }
    assert Unsafe[..|Unsafe|] == Unsafe;
    s := Latin1(s);
    s := Cut(ReplaceChar(s, ' ', "_"));
    r := StripUnderscores(s);
  }

  // ---------------------------------------------------------------------
  // `export_file`
  // ---------------------------------------------------------------------

  /** The file extension of each format offered; None for any other format text. */
  function Extension(format: string): Option<string>
  {
    if format == "CSV" then Some(".csv")
    else if format == "Excel (.xlsx)" then Some(".xlsx")
    else if format == "Text (.txt)" then Some(".txt")
    else None
  }

  /** The path written for a file: `<safe name>_<timestamp><ext>` in the export folder. */
  function OutputPath(folder: string, fileName: string, timestamp: string, ext: string): string
  {
    PathJoin(folder, SafeName(fileName) + "_" + timestamp + ext)
  }

  /**
   * Exports one file.  The sample rows are never empty, so the outcome
   * is that of the writer for the format, and false for an unknown format.
   */
  method ExportFile(folder: string, fileName: string, format: string, timestamp: string, write: string -> bool)
    returns (ok: bool)
    ensures Extension(format).None? ==> !ok
    ensures Extension(format).Some? ==> ok == write(OutputPath(folder, fileName, timestamp, Extension(format).value))
  {
    var safe := SafeFilename(fileName);
    var ext := Extension(format);
    if ext.None? {
      return false;
    }
    ok := write(PathJoin(folder, safe + "_" + timestamp + ext.value));
  }

  // ---------------------------------------------------------------------
  // `ExportWorker.run`
  // ---------------------------------------------------------------------

  /** The signal that ends a run: overall success and the message shown. */
  datatype Completion = Completion(success: bool, message: string)

  /**
   * Whether exporting the file `name` succeeds, `stamp` being the clock
   * reading taken for it: false for an unknown format, else the writer's
   * outcome for the file's path.
   */
  predicate Outcome(folder: string, format: string, write: string -> bool, name: string, stamp: string)
  {
    Extension(format).Some? && write(OutputPath(folder, name, stamp, Extension(format).value))
  }

  /** The outcome of each file of `files` (name, type), file i being stamped `clock(i + 1)`. */
  function Outcomes(files: seq<(string, string)>, folder: string, format: string, write: string -> bool, clock: nat -> string): (oks: seq<bool>)
    ensures |oks| == |files|
    ensures forall i :: 0 <= i < |files| ==> oks[i] == Outcome(folder, format, write, files[i].0, clock(i + 1))
  {
    seq(|files|, i requires 0 <= i < |files| => Outcome(folder, format, write, files[i].0, clock(i + 1)))
  }

  /** The number of successes (`exported_count`). */
  function CountTrue(oks: seq<bool>): (n: nat)
    ensures n <= |oks|
  {
    if |oks| == 0 then 0 else CountTrue(oks[..|oks| - 1]) + (if oks[|oks| - 1] then 1 else 0)
  }

  /** The count reaches the number of outcomes exactly when every outcome is a success. */
  lemma {:induction false} CountTrueAll(oks: seq<bool>)
    ensures CountTrue(oks) == |oks| <==> forall i :: 0 <= i < |oks| ==> oks[i]
  {
    if |oks| > 0 {
      var init := oks[..|oks| - 1];
      CountTrueAll(init);
      assert forall i :: 0 <= i < |init| ==> init[i] == oks[i];
    }
  }

  /** The completion signal of a run that was not stopped. */
  function Summary(exported: nat, total: nat): Completion
  {
    if exported == total then Completion(true, "ส่งออกข้อมูลสำเร็จทั้งหมด " + NatToDecimal(total) + " แฟ้ม")
    else Completion(false, "ส่งออกข้อมูลสำเร็จ " + NatToDecimal(exported) + "/" + NatToDecimal(total) + " แฟ้ม")
  }

  /** The completion signal of a run stopped by the user. */
  const Cancelled := Completion(false, "การส่งออกถูกยกเลิก")

  /** The number of files a run handles: all of them, or those before the stop is seen. */
  function Handled(total: nat, stopAt: Option<nat>): (h: nat)
    ensures h <= total
    ensures h < total <==> stopAt.Some? && stopAt.value < total
  {
    if stopAt.Some? && stopAt.value < total then stopAt.value else total
  }

  /**
   * A run reports success exactly when it was not stopped and every
   * export succeeded; an empty selection succeeds.
   */
  lemma RunSuccess(files: seq<(string, string)>, folder: string, format: string, write: string -> bool,
                   clock: nat -> string, stopAt: Option<nat>)
    ensures var h := Handled(|files|, stopAt);
      var done := if h < |files| then Cancelled else Summary(CountTrue(Outcomes(files, folder, format, write, clock)[..h]), |files|);
      done.success <==> h == |files| && forall i :: 0 <= i < |files| ==> Outcome(folder, format, write, files[i].0, clock(i + 1))
  {
    var oks := Outcomes(files, folder, format, write, clock);
    assert oks[..|files|] == oks;
    CountTrueAll(oks);
  }

  /**
   * The signals of the first i files: each file's name and outcome, the
   * progress after it, and the count of successes.
   */
  ghost predicate Collected(files: seq<(string, string)>, oks: seq<bool>, i: nat, exported: nat,
                            rep: seq<(string, bool)>, prog: seq<nat>)
  {
    i <= |files| && |oks| == |files| && |rep| == i && |prog| == i &&
    (forall j :: 0 <= j < i ==> rep[j] == (files[j].0, oks[j])) &&
    (forall j :: 0 <= j < i ==> prog[j] == Percent(j + 1, |files|)) &&
    exported == CountTrue(oks[..i])
  }

  /** One pass of the run's loop: exports file i and adds its signals. */
  method ExportStep(files: seq<(string, string)>, i: nat, folder: string, format: string,
                    write: string -> bool, clock: nat -> string, ghost oks: seq<bool>,
                    exported: nat, rep: seq<(string, bool)>, prog: seq<nat>)
    returns (exported': nat, rep': seq<(string, bool)>, prog': seq<nat>)
    requires i < |files| && oks == Outcomes(files, folder, format, write, clock)
    requires Collected(files, oks, i, exported, rep, prog)
    ensures Collected(files, oks, i + 1, exported', rep', prog')
  {
    var (name, _) := files[i];
    var ok := ExportFile(folder, name, format, clock(i + 1), write);
    assert oks[..i + 1][..i] == oks[..i];
    exported' := if ok then exported + 1 else exported;
    rep' := rep + [(name, ok)];
    prog' := prog + [Percent(i + 1, |files|)];
  }

  class ExportWorker {
    var isRunning: bool
    /** The per-file outcomes signalled so far (`file_exported`). */
    var reported: seq<(string, bool)>
    /** The progress values signalled so far. */
    var progress: seq<nat>

    constructor()
      ensures isRunning && reported == [] && progress == []
    {
      isRunning := true;
      reported := [];
      progress := [];
    }

    /** `stop()`: the next check of the flag ends the run. */
    method Stop()
      modifies this
      ensures !isRunning && reported == old(reported) && progress == old(progress)
    {
      isRunning := false;
    }

    /**
     * Exports the first h files of `files` in order; the signals for
     * each file (its outcome, then the progress) are collected and
     * recorded when the files are done.
     */
    method ExportFirst(files: seq<(string, string)>, h: nat, folder: string, format: string,
                       write: string -> bool, clock: nat -> string)
      returns (exported: nat, rep: seq<(string, bool)>, prog: seq<nat>)
      requires h <= |files|
      ensures |rep| == h && |prog| == h
      ensures forall i :: 0 <= i < h ==>
        rep[i] == (files[i].0, Outcome(folder, format, write, files[i].0, clock(i + 1)))
      ensures forall i :: 0 <= i < h ==> prog[i] == Percent(i + 1, |files|)
      ensures exported == CountTrue(Outcomes(files, folder, format, write, clock)[..h])
    {
      ghost var oks := Outcomes(files, folder, format, write, clock);
      rep, prog := [], [];
      exported := 0;
      for i := 0 to h
        invariant Collected(files, oks, i, exported, rep, prog)
      {
        exported, rep, prog := ExportStep(files, i, folder, format, write, clock, oks, exported, rep, prog);
      }
    }

    /**
     * Exports `files` in order.  `stopAt` is the number of files handled
     * before the user's stop is seen (None: no stop) and `clock(i)` the
     * timestamp taken for the i-th file.  A stop seen before a file ends
     * the run as cancelled and no later file is touched; otherwise every
     * file is handled and the completion is the summary of the count.
     */
    method Run(files: seq<(string, string)>, folder: string, format: string,
               write: string -> bool, clock: nat -> string, stopAt: Option<nat>)
      returns (done: Completion, exported: nat)
      requires isRunning && reported == [] && progress == []
      modifies this
      ensures var h := Handled(|files|, stopAt);
        |reported| == h && |progress| == h &&
        (forall i :: 0 <= i < h ==>
          reported[i] == (files[i].0, Outcome(folder, format, write, files[i].0, clock(i + 1)))) &&
        (forall i :: 0 <= i < h ==> progress[i] == Percent(i + 1, |files|)) &&
        exported == CountTrue(Outcomes(files, folder, format, write, clock)[..h]) &&
        done == (if h < |files| then Cancelled else Summary(exported, |files|))
    {
      var h := Handled(|files|, stopAt);
      var rep, prog;
      exported, rep, prog := ExportFirst(files, h, folder, format, write, clock);
      reported, progress := rep, prog;
      if h < |files| {
        // the user's stop is seen before file h
        Stop();
        return Cancelled, exported;
      }
      done := Summary(exported, |files|);
    }
  }
}
