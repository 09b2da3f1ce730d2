/*
 * The older restore worker of example_restore.py. It has no delimiter
 * handling: `do_restore` appends every raw line of a file to `sql` and
 * sends `sql` when the line just read ends in exactly `;\r\n`; `run`
 * replays the files in the order they were given; `_time` ticks the
 * elapsed-time label once a second.
 *
 * The database is an oracle `accepts` that says whether a statement
 * executes without error; files are read through `read`.
 */
module LegacyRestore {
  import opened Seqs
  import opened Bytes
  import opened Progress
  import Text

  /** `b";\r\n"`: the only line ending that closes a statement. */
  const StatementEnd: bytes := [59, 13, 10]

  /** The locals of the line loop: the pending `sql` and the statements sent so far. */
  datatype Legacy = Legacy(sql: bytes, statements: seq<bytes>)

  /** One turn of the line loop of `do_restore`: append, and send when the line ends in `;\r\n`. */
  function LegacyStep(st: Legacy, line: bytes): Legacy
  {
    var sql := st.sql + line;
    if EndsWith(line, StatementEnd) then Legacy([], st.statements + [sql]) else Legacy(sql, st.statements)
  }

  /** The state after reading `lines` from the start of a file. */
  function LegacyRun(lines: seq<bytes>): Legacy
  {
    if |lines| == 0 then Legacy([], []) else LegacyStep(LegacyRun(lines[..|lines| - 1]), lines[|lines| - 1])
  }

  /**
   * Nothing is lost or duplicated, and no line is special: the statements
   * sent followed by the pending text are all the lines read, `DELIMITER`
   * lines included.
   */
  lemma {:induction false} LegacyAccounts(lines: seq<bytes>)
    ensures Flatten(LegacyRun(lines).statements) + LegacyRun(lines).sql == Flatten(lines)
  {
    if |lines| > 0 {
      var init, line := lines[..|lines| - 1], lines[|lines| - 1];
      var st := LegacyRun(init);
      LegacyAccounts(init);
      assert lines == init + [line];
      FlattenSnoc(init, line);
      if EndsWith(line, StatementEnd) {
        FlattenSnoc(st.statements, st.sql + line);
      }
    }
  }

  /** Every statement sent ends in `;\r\n`. */
  lemma {:induction false} LegacyStatementsEnd(lines: seq<bytes>)
    ensures forall i :: 0 <= i < |LegacyRun(lines).statements| ==> EndsWith(LegacyRun(lines).statements[i], StatementEnd)
  {
    if |lines| > 0 {
      var st, line := LegacyRun(lines[..|lines| - 1]), lines[|lines| - 1];
      LegacyStatementsEnd(lines[..|lines| - 1]);
      assert forall i :: 0 <= i < |st.statements| ==> EndsWith(st.statements[i], StatementEnd);
      if EndsWith(line, StatementEnd) {
        EndsWithAppend(st.sql, line, StatementEnd);
        EndsWithSnoc(st.statements, st.sql + line, StatementEnd);
      }
    }
  }

  lemma EndsWithSnoc<T>(s: seq<seq<T>>, x: seq<T>, c: seq<T>)
    requires forall i :: 0 <= i < |s| ==> EndsWith(s[i], c)
    requires EndsWith(x, c)
    ensures forall i :: 0 <= i < |s + [x]| ==> EndsWith((s + [x])[i], c)
  {
  }

  lemma EndsWithAppend<T>(a: seq<T>, b: seq<T>, c: seq<T>)
    requires EndsWith(b, c)
    ensures EndsWith(a + b, c)
  {
    assert (a + b)[|a + b| - |c|..] == b[|b| - |c|..];
  }

  /**
   * Lines that do not end in `;\r\n` are only appended: a trailing
   * fragment is never sent, and neither is a file whose lines end in a
   * bare LF, even after `;`.
   */
  lemma {:induction false} LegacyTail(lines: seq<bytes>, k: nat)
    requires k <= |lines|
    requires forall i :: k <= i < |lines| ==> !EndsWith(lines[i], StatementEnd)
    ensures LegacyRun(lines).statements == LegacyRun(lines[..k]).statements
    ensures LegacyRun(lines).sql == LegacyRun(lines[..k]).sql + Flatten(lines[k..])
    decreases |lines|
  {
    if |lines| == k {
      assert lines[..k] == lines;
      assert lines[k..] == [];
    } else {
      var init := lines[..|lines| - 1];
      assert init[..k] == lines[..k];
      LegacyTail(init, k);
      assert lines[k..] == init[k..] + [lines[|lines| - 1]];
      FlattenSnoc(init[k..], lines[|lines| - 1]);
      AppendAssoc(LegacyRun(lines[..k]).sql, Flatten(init[k..]), lines[|lines| - 1]);
    }
  }

  /** A line that ends in `;` and a bare LF, as the dump writes it, does not close a statement. */
  lemma SemicolonLfNotEnd(u: bytes)
    ensures !EndsWith(u + [59, NL], StatementEnd)
  {
    var l := u + [59, NL];
    assert l[|l| - 2] == 59;
  }

  /** The line sent to the error pane for a statement the database refused: the file name and the error. */
  datatype LegacyLog = ExecFailed(file: string, statement: bytes)

  /** The error lines for the statements `sent`, in order. */
  function FailedOf(file: string, accepts: bytes -> bool, sent: seq<bytes>): (r: seq<LegacyLog>)
    ensures |r| <= |sent|
  {
    if |sent| == 0 then []
    else
      var last := sent[|sent| - 1];
      FailedOf(file, accepts, sent[..|sent| - 1]) + (if accepts(last) then [] else [ExecFailed(file, last)])
  }

  /** The failures are exactly the refused statements, each reported with the file name. */
  lemma {:induction false} FailedOfRefused(file: string, accepts: bytes -> bool, sent: seq<bytes>)
    ensures forall e :: e in FailedOf(file, accepts, sent) <==> e.file == file && e.statement in sent && !accepts(e.statement)
  {
    if |sent| > 0 {
      var init := sent[..|sent| - 1];
      FailedOfRefused(file, accepts, init);
      assert sent == init + [sent[|sent| - 1]];
    }
  }

  /** The line progress values emitted after reading `k` of `n` lines: 0 first, then one per line. */
  function LineProgress(k: nat, n: nat): (r: seq<nat>)
    requires k <= n
    ensures |r| == k + 1 && r[0] == 0
  {
    if k == 0 then [0] else LineProgress(k - 1, n) + [Percent(k, n)]
  }

  /** Line progress never falls, and it reaches 100 exactly at the last line. */
  lemma {:induction false} LineProgressFull(k: nat, n: nat)
    requires k <= n
    ensures forall i :: 0 <= i < k + 1 ==> LineProgress(k, n)[i] <= 100
    ensures forall i :: 0 <= i < k + 1 ==> (LineProgress(k, n)[i] == 100 <==> i == n && n > 0)
    ensures forall i, j :: 0 <= i <= j < k + 1 ==> LineProgress(k, n)[i] <= LineProgress(k, n)[j]
  {
    if k > 0 {
      LineProgressFull(k - 1, n);
      var r := LineProgress(k, n);
      assert r[..k] == LineProgress(k - 1, n);
      if k < n {
        PercentBelowFull(k, n);
      }
      forall i | 0 <= i < k ensures r[i] <= r[k] {
        if i > 0 {
          assert r[i] == Percent(i, n) by {
            LineProgressAt(k, n, i);
          }
          PercentMonotone(i, k, n);
        }
      }
    }
  }

  lemma {:induction false} LineProgressAt(k: nat, n: nat, i: nat)
    requires 0 < i <= k <= n
    ensures LineProgress(k, n)[i] == Percent(i, n)
  {
    if i < k {
      LineProgressAt(k - 1, n, i);
    }
  }

  /**
   * `do_restore` on the lines of one file: the statements sent, the
   * errors reported, and the line progress emitted.
   */
  method DoRestore(file: string, lines: seq<bytes>, accepts: bytes -> bool)
    returns (sent: seq<bytes>, log: seq<LegacyLog>, progress: seq<nat>)
    ensures sent == LegacyRun(lines).statements
    ensures log == FailedOf(file, accepts, sent)
    ensures progress == LineProgress(|lines|, |lines|)
  {
    var allLine := |lines|;
    var sql: bytes := [];
    sent, log, progress := [], [], [0];
    var atLine := 0;
    while atLine < allLine
      invariant atLine <= allLine
      invariant LegacyRun(lines[..atLine]) == Legacy(sql, sent)
      invariant log == FailedOf(file, accepts, sent)
      invariant progress == LineProgress(atLine, allLine)
    {
      var line := lines[atLine];
      assert lines[..atLine + 1] == lines[..atLine] + [line];
      atLine := atLine + 1;
      progress := progress + [Percent(atLine, allLine)];
      sql := sql + line;
      if EndsWith(line, StatementEnd) {
        if !accepts(sql) {
          log := log + [ExecFailed(file, sql)];
        }
        assert (sent + [sql])[..|sent|] == sent;
        sent := sent + [sql];
        sql := [];
      }
    }
    assert lines[..atLine] == lines;
  }

  /** The path `run` opens for a listed name: `f"{folder}\\{i}"`. */
  function PathOf(folder: string, name: string): string
  {
    folder + "\\" + name
  }

  /** The count message after each file: `at_file` of `len(files)`. */
  datatype Count = Count(cnt: nat, all: nat)

  /** The statements all files send, file after file in list order. */
  function AllSent(folder: string, files: seq<string>, read: string -> seq<bytes>): seq<bytes>
  {
    if |files| == 0 then []
    else AllSent(folder, files[..|files| - 1], read) + LegacyRun(read(PathOf(folder, files[|files| - 1]))).statements
  }

  /** `run`: every listed file in list order, counting each one done. */
  method RunFiles(folder: string, files: seq<string>, read: string -> seq<bytes>, accepts: bytes -> bool)
    returns (sent: seq<bytes>, counts: seq<Count>)
    ensures sent == AllSent(folder, files, read)
    ensures |counts| == |files|
    ensures forall i :: 0 <= i < |files| ==> counts[i] == Count(i + 1, |files|)
  {
    var atFile := 0;
    sent, counts := [], [];
    while atFile < |files|
      invariant atFile <= |files|
      invariant sent == AllSent(folder, files[..atFile], read)
      invariant |counts| == atFile
      invariant forall i :: 0 <= i < atFile ==> counts[i] == Count(i + 1, |files|)
    {
      var file := PathOf(folder, files[atFile]);
      var s, _, _ := DoRestore(file, read(file), accepts);
      assert files[..atFile + 1][..atFile] == files[..atFile];
      sent := sent + s;
      atFile := atFile + 1;
      counts := counts + [Count(atFile, |files|)];
    }
    assert files[..atFile] == files;
  }

  /** The counter climbs by one per file and never passes the number of files. */
  lemma CountsClimb(counts: seq<Count>, n: nat)
    requires |counts| == n && forall i :: 0 <= i < n ==> counts[i] == Count(i + 1, n)
    ensures forall i :: 0 <= i < n ==> 1 <= counts[i].cnt <= counts[i].all == n
    ensures forall i :: 0 < i < n ==> counts[i].cnt == counts[i - 1].cnt + 1
    ensures n > 0 ==> counts[n - 1].cnt == n
  {
  }

  /** What the elapsed-time label shows: seconds alone, or minutes and seconds. */
  datatype Elapsed = Seconds(sec: nat) | MinutesSeconds(min: nat, sec: nat)

  /** The split `_time` makes of the seconds counted so far. */
  function ElapsedOf(total: nat): (e: Elapsed)
    ensures e.Seconds? <==> total < 60
    ensures e.Seconds? ==> e.sec == total
    ensures e.MinutesSeconds? ==> e.min >= 1 && e.sec < 60 && e.min * 60 + e.sec == total
  {
    if total < 60 then Seconds(total) else MinutesSeconds(total / 60, total % 60)
  }

  /** The label text ("used ... seconds", "used ... minutes ... seconds"). */
  function ElapsedLabel(e: Elapsed): string
  {
    match e
    case Seconds(s) => "ใช้เวลา " + Text.NatToDecimal(s) + " วินาที"
    case MinutesSeconds(m, s) => "ใช้เวลา " + Text.NatToDecimal(m) + " นาที " + Text.NatToDecimal(s) + " วินาที"
  }

  /** The timer behind the elapsed-time label of the main window. */
  class ElapsedTimer {
    var tm: nat
    var caption: string

    constructor ()
      ensures tm == 0 && caption == ""
    {
      tm := 0;
      caption := "";
    }

    /** `_time`, run once a second: one more second, and the label redrawn. */
    method Tick()
      modifies this
      ensures tm == old(tm) + 1
      ensures caption == ElapsedLabel(ElapsedOf(tm))
    {
      tm := tm + 1;
      var sec := tm;
      if sec < 60 {
        caption := "ใช้เวลา " + Text.NatToDecimal(sec) + " วินาที";
      } else {
        var m := sec / 60;
        var s := sec % 60;
        caption := "ใช้เวลา " + Text.NatToDecimal(m) + " นาที " + Text.NatToDecimal(s) + " วินาที";
      }
    }
  }
}
