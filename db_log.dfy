/*
 * The SQL log (DbLog.py): each logged command becomes one entry appended
 * to the log file, made of the clock reading, the command and, for
 * commands with parameters, the cleaned parameters shown as a Python
 * tuple.  The clock reading is a parameter (already formatted as
 * `(YYYY-mm-dd HH:MM:SS)`) and so is whether the file can be written:
 * a failed write is swallowed and leaves the file as it was.
 */
module DbLog {
  import opened Seqs
  import opened Text

  // ---------------------------------------------------------------------
  // Parameter cleaning
  // ---------------------------------------------------------------------

  /**
   * A query parameter: None, a string, an integer, or any other value,
   * carried as its `str()` text.
   */
  datatype Param = Null | Str(s: string) | Int(i: int) | Value(text: string)

  /** Strings longer than this are shortened. */
  const LongParam := 100

  /** The text logged for one parameter. */
  function Clean(p: Param): string
  {
    match p
    case Null => "NULL"
    case Str(s) => if |s| > LongParam then "'" + s[..50] + "..." + s[|s| - 20..] + "'" else "'" + s + "'"
    case Int(i) => IntToDecimal(i)
    case Value(text) => text
  }

  /**
   * A long string is logged as 75 characters: quote, its first 50
   * characters, `...`, its last 20 characters and a quote.
   */
  lemma CleanLong(s: string)
    requires |s| > LongParam
    ensures var c := Clean(Str(s));
      |c| == 75 && c[0] == '\'' && c[1..51] == s[..50] && c[51..54] == "..." &&
      c[54..74] == s[|s| - 20..] && c[74] == '\''
  {
  }

  /**
   * A string of at most 100 characters is logged between quotes with
   * nothing escaped, so it is read back by dropping the two quotes.
   */
  lemma CleanShort(s: string)
    requires |s| <= LongParam
    ensures var c := Clean(Str(s));
      |c| == |s| + 2 && c[0] == '\'' && c[|c| - 1] == '\'' && c[1..|c| - 1] == s
  {
  }

  /** `NULL` in the log stands for None, unless a non-string value prints as `NULL`. */
  lemma CleanNull(p: Param)
    ensures Clean(p) == "NULL" <==> p == Null || p == Value("NULL")
  {
    var c := Clean(p);
    match p {
      case Int(i) =>
        IntToDecimalRoundTrip(i);
        assert c[0] == '-' || (AllDigits(c) && IsDigit(c[0]));
      case Str(s) =>
        assert c[0] == '\'';
      case _ =>
    }
  }

  /** `cleaned_params`: one entry per parameter, in order. */
  method CleanParams(params: seq<Param>) returns (cleaned: seq<string>)
    ensures |cleaned| == |params|
    ensures forall i :: 0 <= i < |params| ==> cleaned[i] == Clean(params[i])
  {
    cleaned := [];
    for k := 0 to |params|
      invariant |cleaned| == k
      invariant forall i :: 0 <= i < k ==> cleaned[i] == Clean(params[i])
    {
      var p := params[k];
      var c;
      if p.Null? {
        c := "NULL";
      } else if p.Str? && |p.s| > LongParam {
        c := "'" + p.s[..50] + "..." + p.s[|p.s| - 20..] + "'";
      } else if p.Str? {
        c := "'" + p.s + "'";
      } else if p.Int? {
        c := IntToDecimal(p.i);
      } else {
        c := p.text;
      }
      cleaned := cleaned + [c];
    }
  }

  // ---------------------------------------------------------------------
  // Python's `repr` of a string and of a tuple of strings
  // ---------------------------------------------------------------------

  /** `repr` quotes with `"` when the text has a `'` and no `"`, else with `'`. */
  function QuoteFor(s: string): (q: char)
    ensures q == '\'' || q == '"'
    ensures q in s ==> q == '\'' && '"' in s
  {
    if '\'' in s && '"' !in s then '"' else '\''
  }

  predicate IsHex(c: char) { '0' <= c <= '9' || 'a' <= c <= 'f' }

  function HexDigit(d: nat): (c: char)
    requires d < 16
    ensures IsHex(c)
  {
    if d < 10 then ('0' as int + d) as char else ('a' as int + d - 10) as char
  }

  function HexValue(c: char): (d: nat)
    requires IsHex(c)
    ensures d < 16
  {
    if c <= '9' then c as int - '0' as int else c as int - 'a' as int + 10
  }

  /** An ASCII control character, shown by `repr` as `\xhh`. */
  predicate IsControl(c: char)
  {
    (c as int) < 32 || (c as int) == 127
  }

  /** How `repr` shows one character inside quotes `q`. */
  function EscapeChar(c: char, q: char): string
  {
    if c == q || c == '\\' then ['\\', c]
    else if c == '\t' then "\\t"
    else if c == '\n' then "\\n"
    else if c == '\r' then "\\r"
    else if IsControl(c) then ['\\', 'x', HexDigit((c as int) / 16), HexDigit((c as int) % 16)]
    else [c]
  }

  function Escape(s: string, q: char): string
  {
    if |s| == 0 then [] else EscapeChar(s[0], q) + Escape(s[1..], q)
  }

  /** `repr(s)`. */
  function StrRepr(s: string): string
  {
    var q := QuoteFor(s);
    [q] + Escape(s, q) + [q]
  }

  /** Reads the text between the quotes of a `repr` back. */
  function Unescape(e: string): string
  {
    if |e| == 0 then []
    else if e[0] == '\\' && |e| >= 2 then
      if e[1] == 't' then ['\t'] + Unescape(e[2..])
      else if e[1] == 'n' then ['\n'] + Unescape(e[2..])
      else if e[1] == 'r' then ['\r'] + Unescape(e[2..])
      else if e[1] == 'x' && |e| >= 4 && IsHex(e[2]) && IsHex(e[3]) then
        [(HexValue(e[2]) * 16 + HexValue(e[3])) as char] + Unescape(e[4..])
      else [e[1]] + Unescape(e[2..])
    else [e[0]] + Unescape(e[1..])
  }

  /** Reading one escaped character back gives the character. */
  lemma UnescapeChar(c: char, q: char, rest: string)
    requires q == '\'' || q == '"'
    ensures Unescape(EscapeChar(c, q) + rest) == [c] + Unescape(rest)
  {
    var e := EscapeChar(c, q) + rest;
    if IsControl(c) && c != '\t' && c != '\n' && c != '\r' {
      var hi, lo := (c as int) / 16, (c as int) % 16;
      assert e[2] == HexDigit(hi) && e[3] == HexDigit(lo) && e[4..] == rest;
      assert HexValue(HexDigit(hi)) == hi && HexValue(HexDigit(lo)) == lo;
    } else if c == q || c == '\\' || c == '\t' || c == '\n' || c == '\r' {
      assert e[2..] == rest;
    } else {
      assert e[1..] == rest;
    }
  }

  /** The escaped text reads back as the original text. */
  lemma {:induction false} UnescapeEscape(s: string, q: char)
    requires q == '\'' || q == '"'
    ensures Unescape(Escape(s, q)) == s
  {
    if |s| > 0 {
      UnescapeEscape(s[1..], q);
      UnescapeChar(s[0], q, Escape(s[1..], q));
    }
  }

  /** Between its quotes, `repr(s)` holds no newline and no unescaped quote. */
  lemma {:induction false} EscapeClean(s: string, q: char)
    requires q == '\'' || q == '"'
    ensures '\n' !in Escape(s, q)
    ensures forall k :: 0 <= k < |Escape(s, q)| && Escape(s, q)[k] == q ==> k > 0 && Escape(s, q)[k - 1] == '\\'
  {
    if |s| > 0 {
      EscapeClean(s[1..], q);
      var h, t := EscapeChar(s[0], q), Escape(s[1..], q);
      assert Escape(s, q) == h + t;
      forall k | 0 <= k < |h + t| && (h + t)[k] == q
        ensures k > 0 && (h + t)[k - 1] == '\\'
      {
        if k >= |h| {
          assert t[k - |h|] == q;
        }
      }
    }
  }

  /** `repr(s)` is read back by dropping the quotes and undoing the escapes. */
  lemma StrReprRoundTrip(s: string)
    ensures var r := StrRepr(s); |r| >= 2 && Unescape(r[1..|r| - 1]) == s
  {
    var q := QuoteFor(s);
    assert StrRepr(s)[1..|StrRepr(s)| - 1] == Escape(s, q);
    UnescapeEscape(s, q);
  }

  /** `repr(tuple(xs))` for a tuple of strings: a one-element tuple keeps a trailing comma. */
  function TupleRepr(xs: seq<string>): string
  {
    var reprs := seq(|xs|, i requires 0 <= i < |xs| => StrRepr(xs[i]));
    "(" + Join(", ", reprs) + (if |xs| == 1 then ",)" else ")")
  }

  /** The tuple text is on one line whatever the strings hold. */
  lemma TupleReprOneLine(xs: seq<string>)
    ensures '\n' !in TupleRepr(xs)
  {
    var reprs := seq(|xs|, i requires 0 <= i < |xs| => StrRepr(xs[i]));
    forall i | 0 <= i < |reprs| ensures '\n' !in reprs[i] {
      var q := QuoteFor(xs[i]);
      EscapeClean(xs[i], q);
    }
    JoinNotIn(", ", reprs, '\n');
  }

  // ---------------------------------------------------------------------
  // Log entries
  // ---------------------------------------------------------------------

  /** The entry of `log_sql`. */
  function SqlEntry(timestamp: string, sql: string): string
  {
    timestamp + " " + sql + "\n"
  }

  /** The entry of `log_sql_with_params`: no parameters give the plain entry. */
  function ParamsEntry(timestamp: string, sql: string, params: seq<Param>): string
  {
    if |params| == 0 then SqlEntry(timestamp, sql)
    else
      var cleaned := seq(|params|, i requires 0 <= i < |params| => Clean(params[i]));
      timestamp + " " + sql + " | Params: " + TupleRepr(cleaned) + "\n"
  }

  /** The entry of `log_operation`: `: details` only when there are details. */
  function OperationEntry(timestamp: string, operation: string, details: string): string
  {
    if details != "" then timestamp + " [OPERATION] " + operation + ": " + details + "\n"
    else timestamp + " [OPERATION] " + operation + "\n"
  }

  /**
   * An entry with parameters starts like the plain entry, and it is a
   * single line whenever the clock reading and the command are: the
   * parameters cannot break it.
   */
  lemma ParamsEntryShape(timestamp: string, sql: string, params: seq<Param>)
    requires '\n' !in timestamp && '\n' !in sql
    ensures var e := ParamsEntry(timestamp, sql, params);
      StartsWith(e, timestamp + " " + sql) && |e| > 0 && e[|e| - 1] == '\n' && '\n' !in e[..|e| - 1]
  {
    var e := ParamsEntry(timestamp, sql, params);
    if |params| > 0 {
      var cleaned := seq(|params|, i requires 0 <= i < |params| => Clean(params[i]));
      TupleReprOneLine(cleaned);
      assert e[..|e| - 1] == timestamp + " " + sql + " | Params: " + TupleRepr(cleaned);
    } else {
      assert e[..|e| - 1] == timestamp + " " + sql;
    }
  }

  /** An operation entry ends with `: details` exactly when details were given. */
  lemma OperationEntryDetails(timestamp: string, operation: string, details: string)
    ensures details != "" ==> EndsWith(OperationEntry(timestamp, operation, details), ": " + details + "\n")
    ensures details == "" ==> OperationEntry(timestamp, operation, details) == timestamp + " [OPERATION] " + operation + "\n"
  {
    var e := OperationEntry(timestamp, operation, details);
    if details != "" {
      var tail := ": " + details + "\n";
      assert e == timestamp + " [OPERATION] " + operation + tail;
      assert e[|e| - |tail|..] == tail;
    }
  }

  /** The log file `db_log.txt`, opened for appending by each call. */
  class LogFile {
    var text: string

    constructor(initial: string)
      ensures text == initial
    {
      text := initial;
    }

    /** `log_sql`. */
    method LogSql(timestamp: string, sql: string, writable: bool)
      modifies this
      ensures text == old(text) + (if writable then SqlEntry(timestamp, sql) else "")
    {
      if writable {
        text := text + timestamp + " " + sql + "\n";
      }
    }

    /** `log_sql_with_params`: the parameters are cleaned in order before the entry is written. */
    method LogSqlWithParams(timestamp: string, sql: string, params: seq<Param>, writable: bool)
      modifies this
      ensures text == old(text) + (if writable then ParamsEntry(timestamp, sql, params) else "")
    {
      var entry;
      if |params| > 0 {
        var cleaned := CleanParams(params);
        assert cleaned == seq(|params|, i requires 0 <= i < |params| => Clean(params[i]));
        entry := timestamp + " " + sql + " | Params: " + TupleRepr(cleaned) + "\n";
      } else {
        entry := timestamp + " " + sql + "\n";
      }
      if writable {
        text := text + entry;
      }
    }

    /** `log_operation`. */
    method LogOperation(timestamp: string, operation: string, details: string, writable: bool)
      modifies this
      ensures text == old(text) + (if writable then OperationEntry(timestamp, operation, details) else "")
    {
      if writable {
        if details != "" {
          text := text + timestamp + " [OPERATION] " + operation + ": " + details + "\n";
        } else {
          text := text + timestamp + " [OPERATION] " + operation + "\n";
        }
      }
    }
  }
}
