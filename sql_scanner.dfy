/*
 * The statement scanner of the restore worker (`_exec_sql_file` in
 * Restore.py) as a state machine over the lines of one `.sql` file.
 * The state is the current delimiter, the pending buffer, the count of
 * lines accumulated (`executed`) and the statements handed to the
 * database so far. The imperative loop in module Restore is proved to
 * follow `Scan`; everything promised about the scanner is proved here.
 */
module SqlScanner {
  import opened Wrappers
  import opened Seqs
  import opened Bytes
  import opened Progress

  /** `b'DELIMITER '` */
  const DirectiveKeyword: bytes := [68, 69, 76, 73, 77, 73, 84, 69, 82, 32]

  /** `b';'`, the delimiter every file starts with and the fallback of a bad directive. */
  const Semicolon: bytes := [59]

  /** A line whose stripped, upper-cased bytes start with `DELIMITER `. */
  predicate IsDirective(line: bytes)
  {
    StartsWith(Upper(Strip(line)), DirectiveKeyword)
  }

  /** The new delimiter: `ls.split(maxsplit=1)[1]`, or `;` when that raises. */
  function DirectiveArgument(line: bytes): bytes
  {
    match SecondField(Strip(line))
    case Some(d) => d
    case None => Semicolon
  }

  /** The emission test exactly as written, with its three alternatives. */
  predicate Terminates(buf: bytes, delimiter: bytes)
  {
    var t := RStrip(buf);
    EndsWith(t, delimiter + [NL]) || EndsWith(t, delimiter + [CR, NL]) || EndsWith(t, delimiter)
  }

  datatype Scanner = Scanner(delimiter: bytes, buf: bytes, executed: nat, statements: seq<bytes>)

  const Start: Scanner := Scanner(Semicolon, [], 0, [])

  /** One iteration of the per-line loop body (after the stop poll). */
  function Step(st: Scanner, line: bytes): Scanner
  {
    if IsDirective(line) then st.(delimiter := DirectiveArgument(line))
    else
      var buf := st.buf + line;
      if Terminates(buf, st.delimiter) then
        st.(buf := [], executed := st.executed + 1, statements := st.statements + [buf])
      else
        st.(buf := buf, executed := st.executed + 1)
  }

  /** The state after feeding `lines` to `st`, one line at a time. */
  function Run(st: Scanner, lines: seq<bytes>): Scanner
  {
    if |lines| == 0 then st else Step(Run(st, lines[..|lines| - 1]), lines[|lines| - 1])
  }

  /** The state after reading the whole of `lines` from the start of a file. */
  function Scan(lines: seq<bytes>): Scanner
  {
    Run(Start, lines)
  }

  /** Reading one more line is one more step. */
  lemma ScanNext(lines: seq<bytes>, i: nat)
    requires i < |lines|
    ensures Scan(lines[..i + 1]) == Step(Scan(lines[..i]), lines[i])
  {
    assert lines[..i + 1][..i] == lines[..i];
  }

  /** What one line adds to the body: itself, unless it is a directive. */
  function Fed(line: bytes): (r: seq<bytes>)
    ensures |r| <= 1
  {
    if IsDirective(line) then [] else [line]
  }

  /** The lines that are not directives: the ones that reach the buffer. */
  function Body(lines: seq<bytes>): (r: seq<bytes>)
    ensures |r| <= |lines|
  {
    if |lines| == 0 then []
    else Body(lines[..|lines| - 1]) + Fed(lines[|lines| - 1])
  }

  /**
   * The split of a directive line always yields a second field: the
   * stripped line ends in a non-space byte after the keyword's space.
   * So the `except` fallback is unreachable and the new delimiter is
   * never empty.
   */
  lemma DirectiveSplitSucceeds(line: bytes)
    requires IsDirective(line)
    ensures SecondField(Strip(line)).Some?
    ensures |DirectiveArgument(line)| > 0
    ensures !IsSpaceByte(DirectiveArgument(line)[0])
  {
    StripEnds(line);
    KeywordLineSplits(Strip(line));
    ArgumentIsSecondField(line);
  }

  lemma ArgumentIsSecondField(line: bytes)
    requires SecondField(Strip(line)).Some?
    ensures DirectiveArgument(line) == SecondField(Strip(line)).value
  {
  }

  /** A stripped line starting (case-insensitively) with the keyword has a second field. */
  lemma KeywordLineSplits(ls: bytes)
    requires |ls| > 0 ==> !IsSpaceByte(ls[|ls| - 1])
    requires StartsWith(Upper(ls), DirectiveKeyword)
    ensures SecondField(ls).Some?
  {
    assert Upper(ls)[9] == DirectiveKeyword[9] == 32;
    assert ls[9] == 32;
    var n := TokenLength(ls);
    assert n <= 9;
    var tail := ls[n..];
    assert tail[|tail| - 1] == ls[|ls| - 1];
    assert !IsSpaceByte(tail[|tail| - 1]);
  }

  /** The delimiter is never empty, at any point of any file. */
  lemma {:induction false} DelimiterNonEmpty(st: Scanner, lines: seq<bytes>)
    requires |st.delimiter| > 0
    ensures |Run(st, lines).delimiter| > 0
  {
    if |lines| > 0 {
      var prev := Run(st, lines[..|lines| - 1]);
      var line := lines[|lines| - 1];
      DelimiterNonEmpty(st, lines[..|lines| - 1]);
      if IsDirective(line) {
        StepDirective(prev, line);
        DirectiveSplitSucceeds(line);
      } else if Terminates(prev.buf + line, prev.delimiter) {
        StepEmit(prev, line);
      } else {
        StepPending(prev, line);
      }
    }
  }

  /**
   * The two `+ b"\n"` alternatives of the emission test never hold: a
   * right-stripped buffer does not end in LF. So the test is exactly
   * "the right-stripped buffer ends with the delimiter".
   */
  lemma TerminatesIff(buf: bytes, delimiter: bytes)
    ensures Terminates(buf, delimiter) <==> EndsWith(RStrip(buf), delimiter)
  {
    var t := RStrip(buf);
    NoSpaceSuffix(t, delimiter + [NL]);
    NoSpaceSuffix(t, delimiter + [CR, NL]);
  }

  /** A byte string not ending in whitespace does not end with a suffix that does. */
  lemma NoSpaceSuffix(t: bytes, suffix: bytes)
    requires |t| > 0 ==> !IsSpaceByte(t[|t| - 1])
    requires |suffix| > 0 && IsSpaceByte(suffix[|suffix| - 1])
    ensures !EndsWith(t, suffix)
  {
    assert |suffix| <= |t| ==> t[|t| - |suffix|..][|suffix| - 1] == t[|t| - 1];
  }

  /**
   * What one line does. A directive only changes the delimiter. Any other
   * line is counted; it is appended to the buffer, and the buffer is
   * emitted and cleared exactly when its right-stripped form ends with
   * the current delimiter.
   */
  lemma StepEffect(st: Scanner, line: bytes)
    ensures IsDirective(line) ==> Step(st, line) == st.(delimiter := DirectiveArgument(line))
    ensures !IsDirective(line) ==>
              Step(st, line).delimiter == st.delimiter && Step(st, line).executed == st.executed + 1
    ensures !IsDirective(line) && EndsWith(RStrip(st.buf + line), st.delimiter) ==>
              Step(st, line).statements == st.statements + [st.buf + line] && Step(st, line).buf == []
    ensures !IsDirective(line) && !EndsWith(RStrip(st.buf + line), st.delimiter) ==>
              Step(st, line).statements == st.statements && Step(st, line).buf == st.buf + line
  {
    TerminatesIff(st.buf + line, st.delimiter);
  }

  /**
   * A line ended by CR LF (a file written in text mode on Windows) takes
   * the same step as the line ended by LF alone: the same directive and
   * delimiter, the same count, and a statement emitted in the one case
   * exactly when it is emitted in the other.
   */
  lemma StepLineEnding(st: Scanner, l: bytes)
    ensures var a := Step(st, l + [NL]);
            var b := Step(st, l + [CR, NL]);
            && a.delimiter == b.delimiter && a.executed == b.executed
            && |a.statements| == |b.statements| && (a.buf == [] <==> b.buf == [])
  {
    RStripLineEnding(l);
    assert Strip(l + [NL]) == Strip(l + [CR, NL]);
    TerminatesLineEnding(st.buf, l, st.delimiter);
  }

  /** Whether the buffer with the line ends a statement does not depend on the line ending. */
  lemma TerminatesLineEnding(buf: bytes, l: bytes, delimiter: bytes)
    ensures Terminates(buf + (l + [NL]), delimiter) == Terminates(buf + (l + [CR, NL]), delimiter)
  {
    RStripLineEnding(buf + l);
    assert buf + (l + [NL]) == (buf + l) + [NL];
    assert buf + (l + [CR, NL]) == (buf + l) + [CR, NL];
    TerminatesIff(buf + (l + [NL]), delimiter);
    TerminatesIff(buf + (l + [CR, NL]), delimiter);
  }

  /** `rstrip` removes either line ending. */
  lemma RStripLineEnding(x: bytes)
    ensures RStrip(x + [NL]) == RStrip(x) && RStrip(x + [CR, NL]) == RStrip(x)
  {
    RStripAppend(x, [NL]);
    RStripAppend(x, [CR, NL]);
    assert RStrip([NL]) == [] && RStrip([CR, NL]) == [];
  }

  /** Feeding two chunks of lines one after the other is feeding their concatenation. */
  lemma {:induction false} RunAppend(st: Scanner, a: seq<bytes>, b: seq<bytes>)
    ensures Run(st, a + b) == Run(Run(st, a), b)
    decreases |b|
  {
    if |b| == 0 {
      assert a + b == a;
    } else {
      assert (a + b)[..|a + b| - 1] == a + b[..|b| - 1];
      RunAppend(st, a, b[..|b| - 1]);
    }
  }

  /**
   * Nothing is lost or duplicated: the statements emitted so far followed
   * by the pending buffer are exactly the non-directive lines read, and
   * `executed` counts those lines. In particular a non-empty buffer left
   * at the end of a file is the tail of the body that no statement holds.
   */
  lemma {:induction false} ScanAccounts(st: Scanner, lines: seq<bytes>)
    ensures Flatten(Run(st, lines).statements) + Run(st, lines).buf
            == Flatten(st.statements) + st.buf + Flatten(Body(lines))
    ensures Run(st, lines).executed == st.executed + |Body(lines)|
  {
    if |lines| > 0 {
      var init := lines[..|lines| - 1];
      var line := lines[|lines| - 1];
      var prev := Run(st, init);
      ScanAccounts(st, init);
      StepAccounts(prev, line);
      FlattenAppend(Body(init), Fed(line));
      var next := Step(prev, line);
      AccountsChain(Flatten(st.statements) + st.buf, Flatten(Body(init)), Flatten(Fed(line)),
                    Flatten(prev.statements) + prev.buf, Flatten(next.statements) + next.buf, Flatten(Body(lines)));
    }
  }

  lemma AccountsChain<T>(base: seq<T>, body: seq<T>, fed: seq<T>, before: seq<T>, after: seq<T>, body': seq<T>)
    requires before == base + body && after == before + fed && body' == body + fed
    ensures after == base + body'
  {
  }

  /** One step keeps the accounting: a non-directive line moves from the input to the buffer. */
  lemma StepAccounts(st: Scanner, line: bytes)
    ensures Flatten(Step(st, line).statements) + Step(st, line).buf
            == Flatten(st.statements) + st.buf + Flatten(Fed(line))
    ensures Step(st, line).executed == st.executed + |Fed(line)|
  {
    if IsDirective(line) {
      AccountsDirective(st, line);
      assert st.buf + [] == st.buf;
    } else if Terminates(st.buf + line, st.delimiter) {
      AccountsEmit(st, line);
      FlattenCons(line, []);
    } else {
      AccountsPending(st, line);
      FlattenCons(line, []);
    }
  }

  lemma AccountsDirective(st: Scanner, line: bytes)
    requires IsDirective(line)
    ensures Flatten(Step(st, line).statements) + Step(st, line).buf == Flatten(st.statements) + st.buf
    ensures Step(st, line).executed == st.executed
  {
    StepDirective(st, line);
  }

  lemma AccountsPending(st: Scanner, line: bytes)
    requires !IsDirective(line) && !Terminates(st.buf + line, st.delimiter)
    ensures Flatten(Step(st, line).statements) + Step(st, line).buf == Flatten(st.statements) + st.buf + line
    ensures Step(st, line).executed == st.executed + 1
  {
    StepPending(st, line);
  }

  lemma AccountsEmit(st: Scanner, line: bytes)
    requires !IsDirective(line) && Terminates(st.buf + line, st.delimiter)
    ensures Flatten(Step(st, line).statements) + Step(st, line).buf == Flatten(st.statements) + st.buf + line
    ensures Step(st, line).executed == st.executed + 1
  {
    StepEmit(st, line);
    EmitBalance(st, line, Step(st, line));
  }

  lemma EmitBalance(st: Scanner, line: bytes, next: Scanner)
    requires next == st.(buf := [], executed := st.executed + 1, statements := st.statements + [st.buf + line])
    ensures Flatten(next.statements) + next.buf == Flatten(st.statements) + st.buf + line
  {
    FlattenSnoc(st.statements, st.buf + line);
  }

  lemma StepDirective(st: Scanner, line: bytes)
    requires IsDirective(line)
    ensures Step(st, line) == st.(delimiter := DirectiveArgument(line))
  {
  }

  lemma StepPending(st: Scanner, line: bytes)
    requires !IsDirective(line) && !Terminates(st.buf + line, st.delimiter)
    ensures Step(st, line) == st.(buf := st.buf + line, executed := st.executed + 1)
  {
  }

  lemma StepEmit(st: Scanner, line: bytes)
    requires !IsDirective(line) && Terminates(st.buf + line, st.delimiter)
    ensures Step(st, line)
            == st.(buf := [], executed := st.executed + 1, statements := st.statements + [st.buf + line])
  {
  }

  /** The statements of a file read only in part are a prefix of those of the whole file. */
  lemma {:induction false} ScanPrefix(st: Scanner, lines: seq<bytes>, k: nat)
    requires k <= |lines|
    ensures Run(st, lines[..k]).statements <= Run(st, lines).statements
    decreases |lines|
  {
    if k < |lines| {
      var init := lines[..|lines| - 1];
      assert lines[..k] == init[..k];
      ScanPrefix(st, init, k);
    } else {
      assert lines[..k] == lines;
    }
  }

  /** Emitted statements only ever grow, by whole statements. */
  lemma {:induction false} StatementsGrow(st: Scanner, lines: seq<bytes>)
    ensures st.statements <= Run(st, lines).statements
  {
    if |lines| > 0 {
      StatementsGrow(st, lines[..|lines| - 1]);
    }
  }

  /**
   * Lines that neither are directives nor complete a statement under the
   * delimiter `d`, when appended one by one to `buf`.
   */
  predicate Pending(d: bytes, buf: bytes, lines: seq<bytes>)
  {
    forall k :: 1 <= k <= |lines| ==> PendingAt(d, buf, lines[..k])
  }

  /** The last of `lines` is not a directive and does not complete a statement. */
  predicate PendingAt(d: bytes, buf: bytes, lines: seq<bytes>)
  {
    |lines| > 0 && !IsDirective(lines[|lines| - 1]) && !Terminates(buf + Flatten(lines), d)
  }

  /** Pending lines are only accumulated. */
  lemma {:induction false} RunPending(st: Scanner, lines: seq<bytes>)
    requires Pending(st.delimiter, st.buf, lines)
    ensures Run(st, lines) == st.(buf := st.buf + Flatten(lines), executed := st.executed + |lines|)
  {
    if |lines| > 0 {
      var init := lines[..|lines| - 1];
      var last := lines[|lines| - 1];
      PendingPrefix(st.delimiter, st.buf, lines);
      RunPending(st, init);
      PendingLast(st.delimiter, st.buf, lines);
      StepPending(Run(st, init), last);
      SnocBuffer(st.buf, lines);
    }
  }

  /** The last pending line, spelled as the step that reads it sees it. */
  lemma PendingLast(d: bytes, buf: bytes, lines: seq<bytes>)
    requires Pending(d, buf, lines) && |lines| > 0
    ensures !IsDirective(lines[|lines| - 1])
    ensures !Terminates(buf + Flatten(lines[..|lines| - 1]) + lines[|lines| - 1], d)
  {
    assert lines[..|lines|] == lines;
    assert PendingAt(d, buf, lines);
    SnocBuffer(buf, lines);
  }

  lemma SnocBuffer(buf: bytes, lines: seq<bytes>)
    requires |lines| > 0
    ensures buf + Flatten(lines[..|lines| - 1]) + lines[|lines| - 1] == buf + Flatten(lines)
  {
    var init := lines[..|lines| - 1];
    var b := lines[|lines| - 1];
    assert lines == init + [b];
    FlattenSnoc(init, b);
    AppendAssoc(buf, Flatten(init), b);
  }

  lemma PendingPrefix(d: bytes, buf: bytes, lines: seq<bytes>)
    requires Pending(d, buf, lines) && |lines| > 0
    ensures Pending(d, buf, lines[..|lines| - 1])
  {
    var init := lines[..|lines| - 1];
    forall k | 1 <= k <= |init|
      ensures PendingAt(d, buf, init[..k])
    {
      assert init[..k] == lines[..k];
    }
  }

  /**
   * A statement spread over several lines: pending lines followed by one
   * that completes it are emitted as a single statement, and the buffer
   * is left empty.
   */
  lemma RunStatement(st: Scanner, lines: seq<bytes>, last: bytes)
    requires Pending(st.delimiter, st.buf, lines)
    requires !IsDirective(last)
    requires Terminates(st.buf + Flatten(lines) + last, st.delimiter)
    ensures Run(st, lines + [last])
            == st.(buf := [], executed := st.executed + |lines| + 1,
                   statements := st.statements + [st.buf + Flatten(lines) + last])
  {
    RunAppend(st, lines, [last]);
    RunPending(st, lines);
    assert [last][..0] == [];
    StepEmit(Run(st, lines), last);
  }

  /** A byte string that does not contain `;` never completes a statement under `;`. */
  lemma NoSemicolonNoTerminate(buf: bytes)
    requires 59 !in buf
    ensures !Terminates(buf, Semicolon)
  {
    TerminatesIff(buf, Semicolon);
    var t := RStrip(buf);
    assert |t| > 0 ==> t[|t| - 1] == buf[|t| - 1];
    assert |t| > 0 ==> t[|t| - 1..] == [t[|t| - 1]];
  }

  /** Non-directive lines without any `;` are pending under `;`. */
  lemma PendingNoSemicolon(buf: bytes, lines: seq<bytes>)
    requires forall i :: 0 <= i < |lines| ==> !IsDirective(lines[i])
    requires 59 !in buf + Flatten(lines)
    ensures Pending(Semicolon, buf, lines)
  {
    forall k | 1 <= k <= |lines|
      ensures PendingAt(Semicolon, buf, lines[..k])
    {
      PrefixNoSemicolon(buf, lines, k);
      NoSemicolonNoTerminate(buf + Flatten(lines[..k]));
      assert lines[..k][k - 1] == lines[k - 1];
    }
  }

  lemma PrefixNoSemicolon(buf: bytes, lines: seq<bytes>, k: nat)
    requires k <= |lines|
    requires 59 !in buf + Flatten(lines)
    ensures 59 !in buf + Flatten(lines[..k])
  {
    FlattenPrefix(lines, k);
    NotInPrefix(buf + Flatten(lines[..k]), buf + Flatten(lines), 59);
  }

  lemma NotInPrefix<T>(x: seq<T>, y: seq<T>, b: T)
    requires x <= y && b !in y
    ensures b !in x
  {
    forall i | 0 <= i < |x| ensures x[i] != b {
      assert x[i] == y[i];
    }
  }

  /** Per-file progress as emitted: `min(100, max(0, int(executed*100/total_lines)))`. */
  function FileProgress(executed: nat, totalLines: nat): (p: int)
    requires totalLines > 0
    ensures 0 <= p <= 100
    ensures executed <= totalLines ==> p == executed * 100 / totalLines
  {
    var raw := executed * 100 / totalLines;
    if raw > 100 then 100 else if raw < 0 then 0 else raw
  }

  /** More lines read never lowers the per-file progress. */
  lemma FileProgressMonotone(e1: nat, e2: nat, totalLines: nat)
    requires totalLines > 0 && e1 <= e2
    ensures FileProgress(e1, totalLines) <= FileProgress(e2, totalLines)
  {
    assert e1 * 100 <= e2 * 100;
    DivMonotone(e1 * 100, e2 * 100, totalLines);
  }

  /** Every line of a file is counted at most once, so the clamp never bites on a whole file. */
  lemma ExecutedBounded(lines: seq<bytes>)
    ensures Scan(lines).executed <= |lines|
  {
    ScanAccounts(Start, lines);
  }
}
