/*
 * Replaying what the dump writes. A dump file is written as UTF-8 text
 * and read back by the restore worker as binary lines, which the
 * delimiter-aware scanner of `_exec_sql_file` cuts into statements. These
 * lemmas follow the sections the dump writes through the scanner: an
 * `INSERT` line is one statement as long as no value holds a line break,
 * the records banner travels with the first `INSERT`, and a routine body
 * between `DELIMITER ;;` and `DELIMITER ;` is one statement unless one of
 * its own lines already completes it.
 */
module RoundTrip {
  import opened Wrappers
  import opened Seqs
  import opened Bytes
  import opened SqlScanner
  import opened Dump

  /** A text without a line feed. */
  predicate NoBreak(s: string)
  {
    '\n' !in s
  }

  /** The UTF-8 bytes of each of `texts`. */
  function Encoded(texts: seq<string>): (r: seq<bytes>)
    ensures |r| == |texts|
    ensures forall i :: 0 <= i < |texts| ==> r[i] == Utf8(texts[i])
  {
    seq(|texts|, i requires 0 <= i < |texts| => Utf8(texts[i]))
  }

  /** Encoding a concatenation of texts encodes each in turn. */
  lemma {:induction false} Utf8Flatten(texts: seq<string>)
    ensures Utf8(Flatten(texts)) == Flatten(Encoded(texts))
  {
    if |texts| > 0 {
      var init := texts[..|texts| - 1];
      Utf8Flatten(init);
      Utf8Append(Flatten(init), texts[|texts| - 1]);
      assert Encoded(texts)[..|texts| - 1] == Encoded(init);
    }
  }

  /** A line of a binary file that ends in LF and holds no other. */
  predicate EndedLine(l: bytes)
  {
    IsLine(l) && l[|l| - 1] == NL
  }

  /** Lines that each end in LF are split back into themselves. */
  lemma {:induction false} SplitEndedLines(ls: seq<bytes>)
    requires forall i :: 0 <= i < |ls| ==> EndedLine(ls[i])
    ensures SplitLines(Flatten(ls)) == ls
  {
    if |ls| > 0 {
      var init := ls[..|ls| - 1];
      var last := ls[|ls| - 1];
      SplitEndedLines(init);
      if |init| > 0 {
        assert Flatten(init) == Flatten(init[..|init| - 1]) + init[|init| - 1];
      }
      SplitLinesAppend(Flatten(init), last);
      SplitLinesAppendLine(last, []);
      assert last + [] == last;
    }
  }

  /** The first byte of the encoding of a text that starts with an ASCII character. */
  lemma FirstByte(s: string)
    requires |s| > 0 && s[0] as int < 128
    ensures |Utf8(s)| > 0 && Utf8(s)[0] == s[0] as int as byte
  {
    assert s == [s[0]] + s[1..];
    Utf8Append([s[0]], s[1..]);
    assert Utf8([s[0]]) == Utf8([]) + Utf8Char(s[0]);
  }

  /** A text and a line feed encode as a line that ends there. */
  lemma TextLine(p: string)
    requires NoBreak(p)
    ensures Utf8(p + "\n") == Utf8(p) + [NL]
    ensures EndedLine(Utf8(p + "\n"))
  {
    Utf8Append(p, "\n");
    assert Utf8("\n") == Utf8([]) + Utf8Char('\n');
    Utf8AsciiByte(p, '\n');
    var u := Utf8(p);
    var l := u + [NL];
    forall i | 0 <= i < |l| - 1 ensures l[i] != NL {
      assert l[i] == u[i] && u[i] in u;
    }
  }

  /** A line whose first byte is neither whitespace nor `D`/`d` is not a `DELIMITER` line. */
  lemma NotDirective(line: bytes)
    requires |line| > 0 && !IsSpaceByte(line[0]) && UpperByte(line[0]) != 68
    ensures !IsDirective(line)
  {
    var r := RStrip(line);
    assert |r| > 0 && r[0] == line[0];
    assert LStrip(r) == r;
    assert Upper(Strip(line))[0] != DirectiveKeyword[0];
  }

  /**
   * A line made of a text without line breaks, then `;` and LF, is one
   * statement under `;`, whatever the buffer held before it (as long as
   * the line itself is not a directive).
   */
  lemma SemicolonLine(buf: bytes, p: string)
    requires |p| > 0 && NoBreak(p) && p[0] as int < 128
    requires !IsSpaceByte(p[0] as int as byte) && UpperByte(p[0] as int as byte) != 68
    ensures EndedLine(Utf8(p + ";\n")) && !IsDirective(Utf8(p + ";\n"))
    ensures Terminates(buf + Utf8(p + ";\n"), Semicolon)
  {
    var q := p + ";";
    assert q + "\n" == p + ";\n";
    assert NoBreak(q);
    TextLine(q);
    Utf8Append(p, ";");
    assert Utf8(";") == Utf8([]) + Utf8Char(';');
    var u := Utf8(p);
    var l := Utf8(p + ";\n");
    assert l == u + [59] + [NL];
    FirstByte(p);
    NotDirective(l);
    SemicolonBytes(buf, u);
  }

  lemma SemicolonBytes(buf: bytes, u: bytes)
    ensures Terminates(buf + (u + [59] + [NL]), Semicolon)
  {
    var t := buf + u + [59];
    assert buf + (u + [59] + [NL]) == t + [NL];
    RStripAppend(t, [NL]);
    assert RStrip([NL]) == RStrip([]);
    RStripNoTrailingSpace(t);
    assert t[|t| - 1..] == Semicolon;
  }

  /** The literals of every row are free of line breaks. */
  predicate LiteralsNoBreak(rows: seq<seq<PyValue>>, cols: seq<Column>, c: Codecs)
  {
    forall i, j :: 0 <= i < |rows| && 0 <= j < |rows[i]| ==> NoBreak(RowLiterals(rows[i], cols, c)[j])
  }

  /**
   * An `INSERT` line whose table name and literals hold no line break is
   * a single line, and it completes a statement under `;` whatever the
   * buffer held.
   */
  lemma InsertReplays(buf: bytes, table: string, vals: seq<string>)
    requires NoBreak(table) && forall j :: 0 <= j < |vals| ==> NoBreak(vals[j])
    ensures var l := Utf8(InsertLine(table, vals));
            EndedLine(l) && !IsDirective(l) && Terminates(buf + l, Semicolon)
  {
    var joined := Join(", ", vals);
    JoinNotIn(", ", vals, '\n');
    var p := "INSERT INTO `" + table + "` VALUES (" + joined + ")";
    assert InsertLine(table, vals) == p + ";\n";
    assert NoBreak(p);
    assert p[0] == 'I';
    SemicolonLine(buf, p);
  }

  /** Lines that each complete a statement on their own, read from an empty buffer, are one statement each. */
  lemma {:induction false} RunStatements(st: Scanner, ls: seq<bytes>)
    requires st.buf == []
    requires forall i :: 0 <= i < |ls| ==> !IsDirective(ls[i]) && Terminates(ls[i], st.delimiter)
    ensures Run(st, ls) == st.(executed := st.executed + |ls|, statements := st.statements + ls)
  {
    if |ls| > 0 {
      var init := ls[..|ls| - 1];
      var last := ls[|ls| - 1];
      RunStatements(st, init);
      var mid := Run(st, init);
      EmptyPrefix(mid.buf, last);
      StepEmit(mid, last);
      SnocLast(st.statements, ls);
    }
  }

  lemma SplitFirst<T>(a: seq<T>, b: seq<T>)
    requires |b| > 0
    ensures a + b == (a + [b[0]]) + b[1..]
  {
  }

  lemma EmptyPrefix<T>(a: seq<T>, b: seq<T>)
    requires a == []
    ensures a + b == b
  {
  }

  lemma InitLast<T>(s: seq<T>)
    requires |s| > 0
    ensures s == s[..|s| - 1] + [s[|s| - 1]]
  {
  }

  lemma SnocLast<T>(a: seq<T>, s: seq<T>)
    requires |s| > 0
    ensures a + s[..|s| - 1] + [s[|s| - 1]] == a + s
  {
    assert s == s[..|s| - 1] + [s[|s| - 1]];
  }

  /**
   * The `INSERT` lines of a table, read from an empty buffer under `;`,
   * come back as one statement per row, in row order, each the bytes of
   * its line, provided no literal and not the table name holds a line break.
   */
  lemma RecordsReplay(st: Scanner, table: string, rows: seq<seq<PyValue>>, cols: seq<Column>, c: Codecs)
    requires st.delimiter == Semicolon && st.buf == []
    requires NoBreak(table) && LiteralsNoBreak(rows, cols, c)
    ensures var lines := RecordLines(table, rows, cols, c);
            SplitLines(Utf8(Flatten(lines))) == Encoded(lines)
            && Run(st, Encoded(lines)) == st.(executed := st.executed + |rows|, statements := st.statements + Encoded(lines))
  {
    var lines := RecordLines(table, rows, cols, c);
    var ls := Encoded(lines);
    forall i | 0 <= i < |ls|
      ensures EndedLine(ls[i]) && !IsDirective(ls[i]) && Terminates(ls[i], Semicolon)
    {
      var vals := RowLiterals(rows[i], cols, c);
      assert forall j :: 0 <= j < |vals| ==> NoBreak(vals[j]);
      InsertReplays([], table, vals);
      assert [] + ls[i] == ls[i];
    }
    Utf8Flatten(lines);
    SplitEndedLines(ls);
    RunStatements(st, ls);
  }

  /** The three lines of a banner, as the restore worker reads them. */
  function BannerLines(title: string): seq<bytes>
  {
    [Utf8(BannerRule), Utf8("-- " + title + "\n"), Utf8(BannerRule)]
  }

  /** The banner's text is its three lines. */
  lemma BannerText(title: string)
    ensures Flatten(BannerLines(title)) == Utf8(Banner(title))
  {
    var bl := BannerLines(title);
    var m := "-- " + title + "\n";
    Utf8Append(BannerRule + m, BannerRule);
    Utf8Append(BannerRule, m);
    Flatten3(bl);
  }

  lemma Flatten3<T>(s: seq<seq<T>>)
    requires |s| == 3
    ensures Flatten(s) == s[0] + s[1] + s[2]
  {
    assert s == [s[0]] + [s[1]] + [s[2]];
    FlattenSnoc([s[0]] + [s[1]], s[2]);
    FlattenSnoc([s[0]], s[1]);
    FlattenSnoc([], s[0]);
    assert [] + [s[0]] == [s[0]];
  }

  /**
   * A banner whose title has no line break and no `;` is three comment
   * lines that never complete a statement under `;`: the scanner keeps
   * them in its buffer.
   */
  lemma BannerPending(title: string)
    requires NoBreak(title) && ';' !in title
    ensures var bl := BannerLines(title);
            && (forall i :: 0 <= i < |bl| ==> EndedLine(bl[i]))
            && Pending(Semicolon, [], bl)
  {
    var bl := BannerLines(title);
    BannerLineFacts(title);
    BannerText(title);
    BannerNoSemicolon(title);
    EmptyPrefix([], Flatten(bl));
    PendingNoSemicolon([], bl);
  }

  lemma BannerLineFacts(title: string)
    requires NoBreak(title)
    ensures var bl := BannerLines(title);
            forall i :: 0 <= i < |bl| ==> EndedLine(bl[i]) && !IsDirective(bl[i])
  {
    var rule := "-- ----------------------------";
    assert BannerRule == rule + "\n";
    CommentLine(rule);
    CommentLine("-- " + title);
  }

  /** A comment line (one that starts with `-`) ends in LF and is no directive. */
  lemma CommentLine(p: string)
    requires NoBreak(p) && |p| > 0 && p[0] == '-'
    ensures EndedLine(Utf8(p + "\n")) && !IsDirective(Utf8(p + "\n"))
  {
    TextLine(p);
    FirstByte(p + "\n");
    NotDirective(Utf8(p + "\n"));
  }

  lemma BannerNoSemicolon(title: string)
    requires ';' !in title
    ensures 59 !in Utf8(Banner(title))
  {
    assert ';' !in BannerRule;
    assert ';' !in "-- " + title + "\n";
    Utf8AsciiByte(Banner(title), ';');
  }

  /**
   * Lines kept pending in the buffer, then lines that each complete a
   * statement: the first statement carries the pending lines with it.
   */
  lemma AbsorbedReplay(st: Scanner, pending: seq<bytes>, ls: seq<bytes>)
    requires st.buf == [] && |ls| > 0 && Pending(st.delimiter, [], pending)
    requires Terminates(Flatten(pending) + ls[0], st.delimiter)
    requires forall i :: 0 <= i < |ls| ==> !IsDirective(ls[i]) && Terminates(ls[i], st.delimiter)
    ensures Run(st, pending + ls)
            == st.(executed := st.executed + |pending| + |ls|,
                   statements := st.statements + [Flatten(pending) + ls[0]] + ls[1..])
  {
    EmptyPrefix(st.buf, Flatten(pending));
    RunStatement(st, pending, ls[0]);
    var st1 := Run(st, pending + [ls[0]]);
    SplitFirst(pending, ls);
    RunAppend(st, pending + [ls[0]], ls[1..]);
    forall i | 0 <= i < |ls[1..]| ensures !IsDirective(ls[1..][i]) && Terminates(ls[1..][i], st.delimiter) {
      assert ls[1..][i] == ls[i + 1];
    }
    RunStatements(st1, ls[1..]);
  }

  /** The bytes of the `INSERT` lines: each a line that completes a statement, the first one even after `buf`. */
  lemma RecordLineFacts(buf: bytes, table: string, rows: seq<seq<PyValue>>, cols: seq<Column>, c: Codecs)
    requires NoBreak(table) && LiteralsNoBreak(rows, cols, c) && |rows| > 0
    ensures var ls := Encoded(RecordLines(table, rows, cols, c));
            && (forall i :: 0 <= i < |ls| ==> EndedLine(ls[i]) && !IsDirective(ls[i]) && Terminates(ls[i], Semicolon))
            && Terminates(buf + ls[0], Semicolon)
  {
    var lines := RecordLines(table, rows, cols, c);
    var ls := Encoded(lines);
    forall i | 0 <= i < |ls|
      ensures EndedLine(ls[i]) && !IsDirective(ls[i]) && Terminates(ls[i], Semicolon)
    {
      var vals := RowLiterals(rows[i], cols, c);
      assert forall j :: 0 <= j < |vals| ==> NoBreak(vals[j]);
      InsertReplays([], table, vals);
      assert [] + ls[i] == ls[i];
    }
    var vals := RowLiterals(rows[0], cols, c);
    assert forall j :: 0 <= j < |vals| ==> NoBreak(vals[j]);
    InsertReplays(buf, table, vals);
  }

  /**
   * The whole records section of a table file: the banner is carried in
   * the buffer into the first `INSERT`, which is sent together with it;
   * every later row is a statement of its own.
   */
  lemma RecordsTextReplay(st: Scanner, table: string, rows: seq<seq<PyValue>>, cols: seq<Column>, c: Codecs)
    requires st.delimiter == Semicolon && st.buf == [] && |rows| > 0
    requires NoBreak(table) && ';' !in table && LiteralsNoBreak(rows, cols, c)
    ensures var lines := RecordLines(table, rows, cols, c);
            Run(st, SplitLines(Utf8(RecordsText(table, rows, cols, c))))
            == st.(executed := st.executed + 3 + |rows|,
                   statements := st.statements + [Utf8(Banner("Records of " + table) + lines[0])] + Encoded(lines[1..]))
  {
    var title := "Records of " + table;
    var lines := RecordLines(table, rows, cols, c);
    var ls := Encoded(lines);
    var bl := BannerLines(title);
    BannerPending(title);
    BannerText(title);
    RecordLineFacts(Flatten(bl), table, rows, cols, c);
    RecordsSplit(title, bl, lines, ls, RecordsText(table, rows, cols, c));
    AbsorbedReplay(st, bl, ls);
    Utf8Append(Banner(title), lines[0]);
    EncodedTail(lines);
  }

  lemma EncodedTail(texts: seq<string>)
    requires |texts| > 0
    ensures Encoded(texts[1..]) == Encoded(texts)[1..]
  {
    var a, b := Encoded(texts[1..]), Encoded(texts)[1..];
    assert |a| == |b|;
    forall i | 0 <= i < |a| ensures a[i] == b[i] {
      assert texts[1..][i] == texts[i + 1];
    }
  }

  lemma RecordsSplit(title: string, bl: seq<bytes>, lines: seq<string>, ls: seq<bytes>, text: string)
    requires text == Banner(title) + Flatten(lines) && ls == Encoded(lines)
    requires Flatten(bl) == Utf8(Banner(title))
    requires forall i :: 0 <= i < |bl| ==> EndedLine(bl[i])
    requires forall i :: 0 <= i < |ls| ==> EndedLine(ls[i])
    ensures SplitLines(Utf8(text)) == bl + ls
  {
    Utf8Flatten(lines);
    Utf8Append(Banner(title), Flatten(lines));
    FlattenAppend(bl, ls);
    forall i | 0 <= i < |bl + ls| ensures EndedLine((bl + ls)[i]) {
      if i >= |bl| {
        assert (bl + ls)[i] == ls[i - |bl|];
      }
    }
    SplitEndedLines(bl + ls);
  }

  /**
   * A `DELIMITER` line with an argument free of whitespace is one line, a
   * directive, and sets exactly that argument as the new delimiter.
   */
  lemma DirectiveLine(d: bytes)
    requires |d| > 0 && forall i :: 0 <= i < |d| ==> !IsSpaceByte(d[i])
    ensures var line := DirectiveKeyword + d + [NL];
            EndedLine(line) && IsDirective(line) && DirectiveArgument(line) == d
  {
    var s := DirectiveKeyword + d;
    DirectiveStripped(d);
    KeywordUpper(s);
    KeywordSecondField(d);
    DirectiveEnded(d);
  }

  /** The directive line stripped is the keyword and its argument. */
  lemma DirectiveStripped(d: bytes)
    requires |d| > 0 && !IsSpaceByte(d[|d| - 1])
    ensures Strip(DirectiveKeyword + d + [NL]) == DirectiveKeyword + d
  {
    var s := DirectiveKeyword + d;
    assert s[0] == 68 && s[|s| - 1] == d[|d| - 1];
    DirectiveStrip(s);
  }

  /** The directive line holds no LF before its end. */
  lemma DirectiveEnded(d: bytes)
    requires forall i :: 0 <= i < |d| ==> !IsSpaceByte(d[i])
    ensures EndedLine(DirectiveKeyword + d + [NL])
  {
    var s := DirectiveKeyword + d;
    forall i | 0 <= i < |s| ensures s[i] == 32 || !IsSpaceByte(s[i]) {
      if i >= |DirectiveKeyword| {
        assert s[i] == d[i - |DirectiveKeyword|];
      }
    }
    NoSpaceLine(s);
  }

  /** Bytes without whitespace, then LF, are one line. */
  lemma NoSpaceLine(s: bytes)
    requires forall i :: 0 <= i < |s| ==> s[i] == 32 || !IsSpaceByte(s[i])
    ensures EndedLine(s + [NL])
  {
    var line := s + [NL];
    forall i | 0 <= i < |line| - 1 ensures line[i] != NL {
      assert line[i] == s[i];
    }
  }

  lemma DirectiveStrip(s: bytes)
    requires |s| > 0 && !IsSpaceByte(s[0]) && !IsSpaceByte(s[|s| - 1])
    ensures Strip(s + [NL]) == s
  {
    RStripAppend(s, [NL]);
    assert RStrip([NL]) == RStrip([]);
    RStripNoTrailingSpace(s);
  }

  lemma KeywordUpper(s: bytes)
    requires DirectiveKeyword <= s
    ensures StartsWith(Upper(s), DirectiveKeyword)
  {
    var u := Upper(s);
    forall i | 0 <= i < 10 ensures u[i] == DirectiveKeyword[i] {
      assert s[i] == DirectiveKeyword[i];
    }
    assert u[..10] == DirectiveKeyword;
  }

  /** The whitespace split of the keyword and an argument yields the argument. */
  lemma KeywordSecondField(d: bytes)
    requires |d| > 0 && !IsSpaceByte(d[0])
    ensures SecondField(DirectiveKeyword + d) == Some(d)
  {
    var s := DirectiveKeyword + d;
    var n := TokenLength(s);
    assert n == 9 by {
      assert s[9] == 32;
      forall i | 0 <= i < 9 ensures !IsSpaceByte(s[i]) {
        assert s[i] == DirectiveKeyword[i];
      }
    }
    assert s[9..] == [32] + d;
    assert ([32] + d)[1..] == d;
  }

  /** The two directive lines a routine file holds, as bytes. */
  lemma DelimiterTexts()
    ensures Utf8("DELIMITER ;;\n") == DirectiveKeyword + [59, 59] + [NL]
    ensures Utf8("DELIMITER ;\n") == DirectiveKeyword + Semicolon + [NL]
  {
    Utf8Ascii("DELIMITER ;;\n");
    Utf8Ascii("DELIMITER ;\n");
  }

  /** The two directive lines of a routine file: `;;` on, then back to `;`. */
  lemma DelimiterLines()
    ensures var on, off := Utf8("DELIMITER ;;\n"), Utf8("DELIMITER ;\n");
            && EndedLine(on) && IsDirective(on) && DirectiveArgument(on) == [59, 59]
            && EndedLine(off) && IsDirective(off) && DirectiveArgument(off) == Semicolon
  {
    DelimiterTexts();
    DirectiveLine([59, 59]);
    DirectiveLine(Semicolon);
  }

  /** Bytes that end in a non-space delimiter and a line feed complete a statement under it. */
  lemma DelimiterBytes(u: bytes, d: bytes)
    requires |d| > 0 && !IsSpaceByte(d[|d| - 1])
    ensures Terminates(u + d + [NL], d)
  {
    var t := u + d;
    RStripAppend(t, [NL]);
    assert RStrip([NL]) == RStrip([]);
    RStripNoTrailingSpace(t);
    assert t[|t| - |d|..] == d;
  }

  /** The lines of a routine section: the opening directive, the body's lines, the closing directive. */
  lemma RoutineSplit(body: string)
    ensures var x := Utf8(body + ";;\n");
            && Terminates(x, [59, 59])
            && SplitLines(Utf8(DelimitedBody(body)))
               == [Utf8("DELIMITER ;;\n")] + SplitLines(x) + [Utf8("DELIMITER ;\n")]
  {
    BodyBytes(body);
    DelimitedBytes(body);
    DelimiterLines();
    SplitBetween(Utf8("DELIMITER ;;\n"), Utf8(body + ";;\n"), Utf8("DELIMITER ;\n"));
  }

  /** The body and its closing `;;` end a statement under `;;`. */
  lemma BodyBytes(body: string)
    ensures var x := Utf8(body + ";;\n");
            |x| > 0 && x[|x| - 1] == NL && Terminates(x, [59, 59])
  {
    Utf8Append(body, ";;\n");
    Utf8Ascii(";;\n");
    assert Utf8(";;\n") == [59, 59] + [NL];
    AppendAssoc(Utf8(body), [59, 59], [NL]);
    DelimiterBytes(Utf8(body), [59, 59]);
  }

  lemma DelimitedBytes(body: string)
    ensures Utf8(DelimitedBody(body))
            == Utf8("DELIMITER ;;\n") + Utf8(body + ";;\n") + Utf8("DELIMITER ;\n")
  {
    assert DelimitedBody(body) == "DELIMITER ;;\n" + (body + ";;\n") + "DELIMITER ;\n";
    Utf8Append("DELIMITER ;;\n" + (body + ";;\n"), "DELIMITER ;\n");
    Utf8Append("DELIMITER ;;\n", body + ";;\n");
  }

  /** Splitting a text between two whole lines. */
  lemma SplitBetween(d1: bytes, x: bytes, d2: bytes)
    requires EndedLine(d1) && EndedLine(d2) && |x| > 0 && x[|x| - 1] == NL
    ensures SplitLines(d1 + x + d2) == [d1] + SplitLines(x) + [d2]
  {
    calc {
      SplitLines(d1 + x + d2);
      { assert d1 + x + d2 == d1 + (x + d2); }
      SplitLines(d1 + (x + d2));
      { SplitLinesAppendLine(d1, x + d2); }
      [d1] + SplitLines(x + d2);
      { SplitLinesAppend(x, d2); SplitLinesEndedLine(d2); }
      [d1] + (SplitLines(x) + [d2]);
    }
  }

  /** A line ending in LF is split into itself alone. */
  lemma SplitLinesEndedLine(l: bytes)
    requires EndedLine(l)
    ensures SplitLines(l) == [l]
  {
    SplitLinesAppendLine(l, []);
    assert l + [] == l;
  }

  /**
   * A routine section read from an empty buffer: `DELIMITER ;;` switches
   * the delimiter, the body and its closing `;;` are sent as one statement,
   * and `DELIMITER ;` switches back; this holds as long as no line of the
   * body before the last completes a statement under `;;` on its own and
   * the last line is no directive.
   */
  lemma RoutineReplay(st: Scanner, body: string)
    requires st.buf == []
    requires var ls := SplitLines(Utf8(body + ";;\n"));
             |ls| > 0 && Pending([59, 59], [], ls[..|ls| - 1]) && !IsDirective(ls[|ls| - 1])
    ensures var ls := SplitLines(Utf8(body + ";;\n"));
            Run(st, SplitLines(Utf8(DelimitedBody(body))))
            == st.(delimiter := Semicolon, executed := st.executed + |ls|,
                   statements := st.statements + [Utf8(body + ";;\n")])
  {
    var x := Utf8(body + ";;\n");
    RoutineSplit(body);
    DelimiterLines();
    SplitLinesFlatten(x);
    DelimitedRun(st, Utf8("DELIMITER ;;\n"), SplitLines(x), Utf8("DELIMITER ;\n"));
  }

  /** Lines between a directive to `;;` and one back to `;` that make up one statement under `;;`. */
  lemma DelimitedRun(st: Scanner, on: bytes, ls: seq<bytes>, off: bytes)
    requires st.buf == [] && |ls| > 0
    requires IsDirective(on) && DirectiveArgument(on) == [59, 59]
    requires IsDirective(off) && DirectiveArgument(off) == Semicolon
    requires Pending([59, 59], [], ls[..|ls| - 1]) && !IsDirective(ls[|ls| - 1])
    requires Terminates(Flatten(ls), [59, 59])
    ensures Run(st, [on] + ls + [off])
            == st.(delimiter := Semicolon, executed := st.executed + |ls|, statements := st.statements + [Flatten(ls)])
  {
    var st2 := st.(delimiter := [59, 59], executed := st.executed + |ls|, statements := st.statements + [Flatten(ls)]);
    OpenedRun(st, on, ls);
    RunDirective(st2, off);
    RunAppend(st, [on] + ls, [off]);
  }

  /** The opening directive and the lines of one statement under `;;`. */
  lemma OpenedRun(st: Scanner, on: bytes, ls: seq<bytes>)
    requires st.buf == [] && |ls| > 0
    requires IsDirective(on) && DirectiveArgument(on) == [59, 59]
    requires Pending([59, 59], [], ls[..|ls| - 1]) && !IsDirective(ls[|ls| - 1])
    requires Terminates(Flatten(ls), [59, 59])
    ensures Run(st, [on] + ls)
            == st.(delimiter := [59, 59], executed := st.executed + |ls|, statements := st.statements + [Flatten(ls)])
  {
    var st1 := st.(delimiter := [59, 59]);
    RunDirective(st, on);
    InitLast(ls);
    SnocBuffer([], ls);
    EmptyPrefix(st1.buf, Flatten(ls[..|ls| - 1]));
    RunStatement(st1, ls[..|ls| - 1], ls[|ls| - 1]);
    RunAppend(st, [on], ls);
  }

  lemma RunDirective(st: Scanner, line: bytes)
    requires IsDirective(line)
    ensures Run(st, [line]) == st.(delimiter := DirectiveArgument(line))
  {
    assert [line][..0] == [];
    StepDirective(st, line);
  }

  /**
   * A text value holding `;` right before a line break, dumped as written:
   * the row's `INSERT` is cut at that line break and its first line,
   * which ends in `;`, is sent on its own as an unfinished statement.
   */
  lemma LineBreakSplitsRow(st: Scanner, table: string, x: string, y: string)
    requires st.delimiter == Semicolon && st.buf == []
    requires NoBreak(table) && NoBreak(x) && Plain(x + ";\n" + y)
    ensures var ls := SplitLines(Utf8(InsertLine(table, [Escape(PyStr(x + ";\n" + y), None)])));
            var first := Utf8("INSERT INTO `" + table + "` VALUES ('" + x + ";\n");
            && |ls| > 1 && ls[0] == first
            && Run(st, ls[..1]).statements == st.statements + [first]
  {
    var q := "INSERT INTO `" + table + "` VALUES ('" + x;
    var rest := y + "');\n";
    RowText(table, x, y);
    Utf8Append(q + ";\n", rest);
    InsertHead(table, x);
    Utf8Append(y, "');\n");
    FirstLineSent(st, Utf8(q + ";\n"), Utf8(rest));
  }

  /** The start of an `INSERT` line cut after a `;`: a line that completes a statement. */
  lemma InsertHead(table: string, x: string)
    requires NoBreak(table) && NoBreak(x)
    ensures var l := Utf8("INSERT INTO `" + table + "` VALUES ('" + x + ";\n");
            EndedLine(l) && !IsDirective(l) && Terminates([] + l, Semicolon)
  {
    var q := "INSERT INTO `" + table + "` VALUES ('" + x;
    assert NoBreak(q);
    assert q[0] == 'I';
    SemicolonLine([], q);
    assert q + ";\n" == "INSERT INTO `" + table + "` VALUES ('" + x + ";\n";
  }

  /** The row's line, cut at the value's line break. */
  lemma RowText(table: string, x: string, y: string)
    requires Plain(x + ";\n" + y)
    ensures InsertLine(table, [Escape(PyStr(x + ";\n" + y), None)])
            == ("INSERT INTO `" + table + "` VALUES ('" + x + ";\n") + (y + "');\n")
  {
    var v := x + ";\n" + y;
    assert v != "None" by { assert v[|x|] == ';'; }
    EscapeTextEach(v);
    EscapeEachPlain(v);
    var lit := Escape(PyStr(v), None);
    assert lit == "'" + v + "'";
    assert Join(", ", [lit]) == lit;
    StringAlgebra("INSERT INTO `" + table + "` VALUES (", x, y);
  }

  lemma StringAlgebra(h: string, x: string, y: string)
    ensures h + ("'" + (x + ";\n" + y) + "'") + ");\n" == (h + "'" + x + ";\n") + (y + "');\n")
  {
  }

  lemma PrefixOne<T>(a: T, s: seq<T>)
    ensures ([a] + s)[..1] == [a] && |[a] + s| == 1 + |s| && ([a] + s)[0] == a
  {
  }

  lemma RunOne(st: Scanner, line: bytes)
    ensures Run(st, [line]) == Step(st, line)
  {
    assert [line][..0] == [];
  }

  /** A first line that completes a statement on its own is sent alone. */
  lemma FirstLineSent(st: Scanner, a: bytes, b: bytes)
    requires st.buf == [] && |b| > 0
    requires EndedLine(a) && !IsDirective(a) && Terminates([] + a, st.delimiter)
    ensures var ls := SplitLines(a + b);
            |ls| > 1 && ls[0] == a && Run(st, ls[..1]).statements == st.statements + [a]
  {
    SplitLinesAppendLine(a, b);
    PrefixOne(a, SplitLines(b));
    EmptyPrefix(st.buf, a);
    RunOne(st, a);
    StepEmit(st, a);
  }

  /**
   * With the corrected escaping a row of texts is one line that completes
   * one statement, whatever line breaks the texts hold.
   */
  lemma SafeInsertReplays(buf: bytes, table: string, texts: seq<string>)
    requires NoBreak(table)
    ensures var l := Utf8(InsertLine(table, SafeLiterals(texts)));
            EndedLine(l) && !IsDirective(l) && Terminates(buf + l, Semicolon)
  {
    InsertReplays(buf, table, SafeLiterals(texts));
  }

  /** The quoted, corrected literals of `texts`. */
  function SafeLiterals(texts: seq<string>): (vals: seq<string>)
    ensures |vals| == |texts|
    ensures forall j :: 0 <= j < |texts| ==> NoBreak(vals[j]) && ReadStringLiteral(vals[j]) == Some((texts[j], ""))
  {
    seq(|texts|, j requires 0 <= j < |texts| => SafeLiteral(texts[j]))
  }

  function SafeLiteral(t: string): (lit: string)
    ensures NoBreak(lit) && ReadStringLiteral(lit) == Some((t, ""))
  {
    var e := EscapeSafe(t);
    QuotedRead(e, "");
    ReadEscapedSafe(t, "");
    assert Quote(e) + "" == Quote(e);
    assert e + "'" + "" == e + "'";
    Quote(e)
  }
}
