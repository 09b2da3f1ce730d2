/*
 * The text the backup worker of Backup.py writes: `_escape`, the column
 * classification, the decoding of a fetched cell, the `INSERT` line of a
 * row and the per-object file texts (table, view, routine). The loop that
 * writes one file per object is in module Backup.
 *
 * The reading side states what MySQL makes of these literals: a quoted
 * string literal with the backslash escapes `\\` and `\'`, and a `0x` hex
 * literal. Database results are inputs; the tis-620, utf-8 and cp874
 * decoders are abstract partial functions, latin-1 is modelled (it never
 * fails).
 */
module Dump {
  import opened Wrappers
  import opened Seqs
  import opened Text
  import opened Bytes

  /** A value as `_escape` receives it. Floating-point values are not modelled. */
  datatype PyValue = PyNone | PyInt(i: int) | PyBytes(b: bytes) | PyStr(s: string)

  // ---------------------------------------------------------------------
  // Hex literals
  // ---------------------------------------------------------------------

  /** The lowercase hex digit of `d`, as `bytes.hex()` writes it. */
  function HexDigit(d: nat): (c: char)
    requires d < 16
  {
    if d < 10 then ('0' as int + d) as char else ('a' as int + d - 10) as char
  }

  /** The value of a lowercase hex digit, or None for any other character. */
  function HexDigitValue(c: char): (r: Option<nat>)
    ensures r.Some? ==> r.value < 16
  {
    if '0' <= c <= '9' then Some(c as int - '0' as int)
    else if 'a' <= c <= 'f' then Some(c as int - 'a' as int + 10)
    else None
  }

  /** `bytes.hex()`: two lowercase digits per byte, high nibble first. */
  function Hex(bs: bytes): (r: string)
  {
    if |bs| == 0 then [] else [HexDigit(bs[0] as int / 16), HexDigit(bs[0] as int % 16)] + Hex(bs[1..])
  }

  /** The bytes MySQL reads from the digits of a `0x` literal; None when they are not pairs of hex digits. */
  function Unhex(s: string): (r: Option<bytes>)
    decreases |s|
  {
    if |s| == 0 then Some([])
    else if |s| == 1 then None
    else
      match (HexDigitValue(s[0]), HexDigitValue(s[1]), Unhex(s[2..]))
      case (Some(h), Some(l), Some(rest)) => Some([(h * 16 + l) as byte] + rest)
      case _ => None
  }

  lemma HexDigitRoundTrip(d: nat)
    requires d < 16
    ensures HexDigitValue(HexDigit(d)) == Some(d)
  {
  }

  /** Reading the hex digits back gives the bytes; there are two digits per byte. */
  lemma {:induction false} UnhexHex(bs: bytes)
    ensures |Hex(bs)| == 2 * |bs|
    ensures Unhex(Hex(bs)) == Some(bs)
  {
    if |bs| > 0 {
      var h, l := bs[0] as int / 16, bs[0] as int % 16;
      UnhexHex(bs[1..]);
      HexDigitRoundTrip(h);
      HexDigitRoundTrip(l);
      var s := Hex(bs);
      assert s[0] == HexDigit(h) && s[1] == HexDigit(l) && s[2..] == Hex(bs[1..]);
      assert [bs[0]] + bs[1..] == bs;
    }
  }

  // ---------------------------------------------------------------------
  // Quoted string literals
  // ---------------------------------------------------------------------

  /** `s.replace("\\", "\\\\").replace("'", "\\'")`, the two passes in source order. */
  function EscapeText(s: string): string
  {
    ReplaceChar(ReplaceChar(s, '\\', "\\\\"), '\'', "\\'")
  }

  /** What the two passes make of one character. */
  function EscapeChar(c: char): string
  {
    if c == '\\' then "\\\\" else if c == '\'' then "\\'" else [c]
  }

  /** The same escaping done in one pass, character by character. */
  function EscapeEach(s: string): string
  {
    if |s| == 0 then [] else EscapeChar(s[0]) + EscapeEach(s[1..])
  }

  /**
   * The second pass does not touch the backslashes the first pass added,
   * so the two passes escape each character independently.
   */
  lemma {:induction false} EscapeTextEach(s: string)
    ensures EscapeText(s) == EscapeEach(s)
  {
    if |s| > 0 {
      var once := ReplaceChar([s[0]], '\\', "\\\\");
      var rest := ReplaceChar(s[1..], '\\', "\\\\");
      assert [s[0]] + s[1..] == s;
      ReplaceCharAppend([s[0]], s[1..], '\\', "\\\\");
      ReplaceCharAppend(once, rest, '\'', "\\'");
      EscapeCharTwoPass(s[0]);
      EscapeTextEach(s[1..]);
    }
  }

  lemma ReplaceCharSingle(x: char, c: char, rep: string)
    ensures ReplaceChar([x], c, rep) == if x == c then rep else [x]
  {
    assert [x][1..] == [];
  }

  lemma EscapeCharTwoPass(c: char)
    ensures ReplaceChar(ReplaceChar([c], '\\', "\\\\"), '\'', "\\'") == EscapeChar(c)
  {
    ReplaceCharSingle(c, '\\', "\\\\");
    if c == '\\' {
      assert "\\\\" == ['\\'] + ['\\'];
      ReplaceCharAppend(['\\'], ['\\'], '\'', "\\'");
      ReplaceCharSingle('\\', '\'', "\\'");
    } else {
      ReplaceCharSingle(c, '\'', "\\'");
    }
  }

  /** Python truncation `s[:max_length]`, applied only when `max_length` is set, non-zero and exceeded. */
  function Truncate(s: string, maxLength: Option<nat>): (r: string)
    ensures r <= s
    ensures maxLength.Some? && maxLength.value > 0 ==> |r| == if |s| > maxLength.value then maxLength.value else |s|
    ensures maxLength.None? || maxLength.value == 0 ==> r == s
  {
    if maxLength.Some? && maxLength.value > 0 && |s| > maxLength.value then s[..maxLength.value] else s
  }

  /** `_escape(val, max_length)`. */
  function Escape(v: PyValue, maxLength: Option<nat>): string
  {
    match v
    case PyNone => "''"
    case PyInt(i) => "'" + IntToDecimal(i) + "'"
    case PyBytes(b) => "0x" + Hex(b)
    case PyStr(s) => "'" + EscapeText(Truncate(if s == "None" then "" else s, maxLength)) + "'"
  }

  /**
   * MySQL's reading of the inside of a quoted string literal, up to and
   * including its closing quote: the content and the text after it. A
   * doubled quote stands for one quote; of the backslash escapes the two
   * the dump writes (`\\` and `\'`) and the line breaks `\n` and `\r` are
   * read, any other gives None.
   */
  function ReadQuoted(s: string): Option<(string, string)>
    decreases |s|
  {
    if |s| == 0 then None
    else if s[0] == '\'' then
      if |s| > 1 && s[1] == '\'' then Prepend('\'', ReadQuoted(s[2..])) else Some(([], s[1..]))
    else if s[0] == '\\' then
      if |s| > 1 && (s[1] == '\\' || s[1] == '\'') then Prepend(s[1], ReadQuoted(s[2..]))
      else if |s| > 1 && s[1] == 'n' then Prepend('\n', ReadQuoted(s[2..]))
      else if |s| > 1 && s[1] == 'r' then Prepend('\r', ReadQuoted(s[2..]))
      else None
    else Prepend(s[0], ReadQuoted(s[1..]))
  }

  function Prepend(c: char, r: Option<(string, string)>): Option<(string, string)>
  {
    match r
    case None => None
    case Some((body, rest)) => Some(([c] + body, rest))
  }

  /** A string literal: an opening quote, then `ReadQuoted`. */
  function ReadStringLiteral(s: string): Option<(string, string)>
  {
    if |s| > 0 && s[0] == '\'' then ReadQuoted(s[1..]) else None
  }

  /** The escaped text, closed by a quote, reads back as the text, whatever follows (unless it is a quote). */
  lemma {:induction false} ReadEscaped(x: string, rest: string)
    requires |rest| == 0 || rest[0] != '\''
    ensures ReadQuoted(EscapeEach(x) + "'" + rest) == Some((x, rest))
  {
    if |x| == 0 {
      assert EscapeEach(x) + "'" + rest == "'" + rest;
      assert ("'" + rest)[1..] == rest;
    } else {
      var tail := EscapeEach(x[1..]) + "'" + rest;
      ReadEscaped(x[1..], rest);
      assert EscapeEach(x) + "'" + rest == EscapeChar(x[0]) + tail;
      if x[0] == '\\' || x[0] == '\'' {
        assert (EscapeChar(x[0]) + tail)[2..] == tail;
      } else {
        assert (EscapeChar(x[0]) + tail)[1..] == tail;
      }
      assert [x[0]] + x[1..] == x;
    }
  }

  /**
   * The escaping `_escape` evidently needs: as written it leaves line
   * breaks in the literal, so a value with a line break spreads its
   * `INSERT` over several lines of the dump. Writing LF and CR as `\n`
   * and `\r` keeps every literal on one line.
   */
  function EscapeCharSafe(c: char): string
  {
    if c == '\n' then "\\n" else if c == '\r' then "\\r" else EscapeChar(c)
  }

  function EscapeSafe(s: string): (r: string)
    ensures '\n' !in r && '\r' !in r
  {
    if |s| == 0 then [] else EscapeCharSafe(s[0]) + EscapeSafe(s[1..])
  }

  /** The corrected escaping differs from the written one only on line breaks. */
  lemma {:induction false} EscapeSafeAgrees(s: string)
    requires '\n' !in s && '\r' !in s
    ensures EscapeSafe(s) == EscapeText(s)
  {
    EscapeTextEach(s);
    EscapeSafeEach(s);
  }

  lemma {:induction false} EscapeSafeEach(s: string)
    requires '\n' !in s && '\r' !in s
    ensures EscapeSafe(s) == EscapeEach(s)
  {
    if |s| > 0 {
      assert s[0] in s;
      assert forall c :: c in s[1..] ==> c in s;
      EscapeSafeEach(s[1..]);
    }
  }

  /** The corrected literal reads back as the text, line breaks included. */
  lemma {:induction false} ReadEscapedSafe(x: string, rest: string)
    requires |rest| == 0 || rest[0] != '\''
    ensures ReadQuoted(EscapeSafe(x) + "'" + rest) == Some((x, rest))
  {
    if |x| == 0 {
      assert EscapeSafe(x) + "'" + rest == "'" + rest;
      assert ("'" + rest)[1..] == rest;
    } else {
      var tail := EscapeSafe(x[1..]) + "'" + rest;
      ReadEscapedSafe(x[1..], rest);
      assert EscapeSafe(x) + "'" + rest == EscapeCharSafe(x[0]) + tail;
      if x[0] == '\\' || x[0] == '\'' || x[0] == '\n' || x[0] == '\r' {
        assert (EscapeCharSafe(x[0]) + tail)[2..] == tail;
      } else {
        assert (EscapeCharSafe(x[0]) + tail)[1..] == tail;
      }
      assert [x[0]] + x[1..] == x;
    }
  }

  /**
   * Reading the literal `_escape` writes for a text gives back the text,
   * after the `'None'`-to-empty rule and the cut to `max_length`.
   */
  lemma EscapeStrRoundTrip(s: string, maxLength: Option<nat>, rest: string)
    requires |rest| == 0 || rest[0] != '\''
    ensures ReadStringLiteral(Escape(PyStr(s), maxLength) + rest)
            == Some((Truncate(if s == "None" then "" else s, maxLength), rest))
  {
    var t := Truncate(if s == "None" then "" else s, maxLength);
    EscapeTextEach(t);
    assert Escape(PyStr(s), maxLength) == Quote(EscapeEach(t));
    QuotedRead(EscapeEach(t), rest);
    ReadEscaped(t, rest);
  }

  /**
   * An integer is written as its quoted decimal text (`IntToDecimalRoundTrip`
   * reads that text back as the integer).
   */
  lemma EscapeIntRoundTrip(i: int, maxLength: Option<nat>, rest: string)
    requires |rest| == 0 || rest[0] != '\''
    ensures ReadStringLiteral(Escape(PyInt(i), maxLength) + rest) == Some((IntToDecimal(i), rest))
  {
    var d := IntToDecimal(i);
    IntToDecimalRoundTrip(i);
    NoQuoteOrBackslash(d);
    EscapeEachPlain(d);
    assert Escape(PyInt(i), maxLength) == Quote(EscapeEach(d));
    QuotedRead(EscapeEach(d), rest);
    ReadEscaped(d, rest);
  }

  /** `'e'` between quotes. */
  function Quote(e: string): string
  {
    "'" + e + "'"
  }

  /** Reading a quoted text starts right after its opening quote. */
  lemma QuotedRead(e: string, rest: string)
    ensures ReadStringLiteral(Quote(e) + rest) == ReadQuoted(e + "'" + rest)
  {
    assert (Quote(e) + rest)[1..] == e + "'" + rest;
  }

  /**
   * How MySQL reads the literal of a binary cell: `''` is the empty byte
   * string, and `0x` followed by pairs of hex digits is those bytes. A bare
   * `0x`, with no digit, is not a hex literal at all: MySQL takes it for a
   * column name.
   */
  function ReadBlobLiteral(lit: string): (r: Option<bytes>)
    ensures lit == "0x" ==> r.None?
    ensures r.Some? && |r.value| > 0 ==> |lit| > 2 && lit[..2] == "0x"
  {
    if lit == "''" then Some([])
    else if |lit| > 2 && lit[..2] == "0x" then Unhex(lit[2..])
    else None
  }

  /**
   * Bytes are written as `0x` and their hex digits. The digits read back as
   * the bytes, but the whole literal reads back only when there is at least
   * one byte: the empty byte string becomes a bare `0x`.
   */
  lemma EscapeBytesRoundTrip(b: bytes, maxLength: Option<nat>)
    ensures var lit := Escape(PyBytes(b), maxLength);
            lit[..2] == "0x" && Unhex(lit[2..]) == Some(b)
            && ReadBlobLiteral(lit) == (if |b| > 0 then Some(b) else None)
  {
    UnhexHex(b);
    assert ("0x" + Hex(b))[2..] == Hex(b);
  }

  /** NULL and the text `None` are both written as the empty literal. */
  lemma EscapeNoneText(maxLength: Option<nat>)
    ensures Escape(PyNone, maxLength) == Escape(PyStr("None"), maxLength) == Escape(PyStr(""), maxLength) == "''"
  {
    assert ReplaceChar("", '\\', "\\\\") == "";
    assert ReplaceChar("", '\'', "\\'") == "";
  }

  predicate Plain(s: string)
  {
    forall i :: 0 <= i < |s| ==> s[i] != '\\' && s[i] != '\''
  }

  lemma NoQuoteOrBackslash(d: string)
    requires |d| > 0 && ((d[0] == '-' && AllDigits(d[1..])) || AllDigits(d))
    ensures Plain(d)
  {
    forall i | 0 <= i < |d| ensures d[i] != '\\' && d[i] != '\'' {
      if i > 0 && d[0] == '-' {
        assert d[1..][i - 1] == d[i];
      }
    }
  }

  /** Text without quotes or backslashes is written unchanged. */
  lemma {:induction false} EscapeEachPlain(s: string)
    requires Plain(s)
    ensures EscapeEach(s) == s
  {
    if |s| > 0 {
      EscapeEachPlain(s[1..]);
      assert [s[0]] + s[1..] == s;
    }
  }

  // ---------------------------------------------------------------------
  // Column classification
  // ---------------------------------------------------------------------

  const NumericKeys: seq<string> := ["tinyint", "smallint", "mediumint", "int", "bigint", "decimal", "numeric", "float", "double", "bit"]
  const DateKeys: seq<string> := ["date", "datetime", "time", "timestamp", "year"]
  const StringKeys: seq<string> := ["char", "text", "enum", "set"]
  const BlobKeys: seq<string> := ["blob", "binary"]

  /** The texts longer than this are cut to their declared length. */
  const TruncateAbove: nat := 10000

  /** What the table loop records about one column of `SHOW COLUMNS`. */
  datatype Column = Column(name: string, isNumeric: bool, isDateTime: bool, isString: bool, isBlob: bool, maxLength: Option<nat>)

  /** `any(k in t for k in keys)`. */
  predicate MentionsAny(t: string, keys: seq<string>)
  {
    exists k :: k in keys && Contains(t, k)
  }

  /** The longest run of digits at the start of `s`. */
  function DigitRun(s: string): (r: string)
    ensures r <= s && AllDigits(r)
    ensures |r| < |s| ==> !IsDigit(s[|r|])
  {
    if |s| > 0 && IsDigit(s[0]) then [s[0]] + DigitRun(s[1..]) else []
  }

  /** `re.search(r'(\d+)', s)` converted with `int`: the value of the first run of digits, if any. */
  function FirstNumber(s: string): Option<nat>
  {
    if |s| == 0 then None
    else if IsDigit(s[0]) then Some(ParseNat(DigitRun(s)))
    else FirstNumber(s[1..])
  }

  /** The first number of a text is the one written after a digit-free prefix. */
  lemma {:induction false} FirstNumberOf(prefix: string, n: nat, rest: string)
    requires forall i :: 0 <= i < |prefix| ==> !IsDigit(prefix[i])
    requires |rest| == 0 || !IsDigit(rest[0])
    ensures FirstNumber(prefix + NatToDecimal(n) + rest) == Some(n)
  {
    var s := prefix + NatToDecimal(n) + rest;
    if |prefix| == 0 {
      assert s == NatToDecimal(n) + rest;
      DigitRunOf(NatToDecimal(n), rest);
      ParseNatToDecimal(n);
    } else {
      assert s[1..] == prefix[1..] + NatToDecimal(n) + rest;
      FirstNumberOf(prefix[1..], n, rest);
    }
  }

  lemma {:induction false} DigitRunOf(d: string, rest: string)
    requires |d| > 0 && AllDigits(d)
    requires |rest| == 0 || !IsDigit(rest[0])
    ensures DigitRun(d + rest) == d
  {
    if |d| == 1 {
      assert (d + rest)[1..] == rest;
    } else {
      assert (d + rest)[1..] == d[1..] + rest;
      DigitRunOf(d[1..], rest);
      assert [d[0]] + d[1..] == d;
    }
  }

  /** A text without digits has no first number. */
  lemma {:induction false} FirstNumberNone(s: string)
    requires forall i :: 0 <= i < |s| ==> !IsDigit(s[i])
    ensures FirstNumber(s) == None
  {
    if |s| > 0 {
      FirstNumberNone(s[1..]);
    }
  }

  /** The declared length of a string column, kept only when it is over 10000. */
  function MaxLength(isString: bool, ctype: string): (r: Option<nat>)
  {
    if !isString then None
    else match FirstNumber(ctype)
      case Some(n) => if n <= TruncateAbove then None else Some(n)
      case None => None
  }

  /** One column of `SHOW COLUMNS`: its name and the flags read from its type text. */
  function Classify(name: string, ctype: string): (col: Column)
    ensures col.name == name
    ensures col.maxLength.Some? ==>
              col.isString && col.maxLength.value > TruncateAbove && FirstNumber(ctype) == col.maxLength
  {
    var tl := Lower(ctype);
    var isString := MentionsAny(tl, StringKeys);
    Column(name, MentionsAny(tl, NumericKeys), MentionsAny(tl, DateKeys), isString, MentionsAny(tl, BlobKeys),
           MaxLength(isString, ctype))
  }

  /** A string column whose type names a length over 10000 is cut to that length. */
  lemma ClassifyTruncates(name: string, ctype: string, n: nat)
    requires MentionsAny(Lower(ctype), StringKeys)
    requires FirstNumber(ctype) == Some(n) && n > TruncateAbove
    ensures Classify(name, ctype).maxLength == Some(n)
  {
  }

  /** The declared type names a key at a given position. */
  lemma Mentions(t: string, keys: seq<string>, k: nat, i: nat)
    requires k < |keys| && OccursAt(t, keys[k], i)
    ensures MentionsAny(t, keys)
  {
    assert keys[k] in keys && OccursAt(t, keys[k], i);
  }

  /**
   * `varchar(n)` is a string column and not binary; it is cut to `n`
   * exactly when `n` is over the limit, so `varchar(255)` is never cut
   * and `varchar(20000)` is cut at 20000.
   */
  lemma ClassifyVarchar(name: string, n: nat)
    ensures var c := Classify(name, "varchar(" + NatToDecimal(n) + ")");
      c.isString && !c.isBlob && c.maxLength == (if n > TruncateAbove then Some(n) else None)
  {
    var t := "varchar(" + NatToDecimal(n) + ")";
    VarcharLetters(n);
    assert MentionsAny(Lower(t), StringKeys) by {
      Mentions(t, StringKeys, 0, 3);
    }
    assert !MentionsAny(Lower(t), BlobKeys) by {
      NoFirstLetter(t, BlobKeys);
    }
    assert FirstNumber(t) == Some(n) by {
      FirstNumberOf("varchar(", n, ")");
    }
  }

  /** `varchar(n)` holds only lower-case letters, parentheses and digits, and lowers to itself. */
  lemma VarcharLetters(n: nat)
    ensures var t := "varchar(" + NatToDecimal(n) + ")";
      Lower(t) == t && 'b' !in t && OccursAt(t, "char", 3)
  {
    var d := NatToDecimal(n);
    var t := "varchar(" + d + ")";
    forall i | 0 <= i < |t| ensures !IsUpperAscii(t[i]) && t[i] != 'b' {
      if 8 <= i < 8 + |d| {
        assert t[i] == d[i - 8];
      }
    }
    assert t[3..7] == "char";
  }

  /** `longblob` is binary and not a string column. */
  lemma ClassifyLongblob()
    ensures var c := Classify("photo", "longblob"); c.isBlob && !c.isString && c.maxLength == None
  {
    var t := "longblob";
    assert Lower(t) == t;
    Mentions(t, BlobKeys, 0, 4);
    LongblobNotString();
  }

  lemma LongblobNotString()
    ensures !MentionsAny("longblob", StringKeys)
  {
    NoFirstLetter("longblob", StringKeys);
  }

  /** `datetime` matches the date keys. */
  lemma ClassifyDatetime()
    ensures var c := Classify("d", "datetime"); c.isDateTime && c.maxLength == None
  {
    var t := "datetime";
    assert Lower(t) == t;
    Mentions(t, DateKeys, 0, 0);
    FirstNumberNone(t);
  }

  /** A text that lacks the first letter of every key mentions none of them. */
  lemma NoFirstLetter(t: string, keys: seq<string>)
    requires forall k :: k in keys ==> |k| > 0 && k[0] !in t
    ensures !MentionsAny(t, keys)
  {
    forall k, i | k in keys && 0 <= i <= |t| - |k| ensures !OccursAt(t, k, i) {
      assert t[i] in t;
      assert t[i..i + |k|][0] == t[i] != k[0];
    }
  }

  /** The classified columns of a table, one per row of `SHOW COLUMNS`, in order. */
  function ColumnsOf(columnRows: seq<(string, string)>): (cols: seq<Column>)
    ensures |cols| == |columnRows|
    ensures forall i :: 0 <= i < |cols| ==> cols[i] == Classify(columnRows[i].0, columnRows[i].1)
  {
    seq(|columnRows|, i requires 0 <= i < |columnRows| => Classify(columnRows[i].0, columnRows[i].1))
  }

  /** The loop over `SHOW COLUMNS`, appending to the column lists. */
  method DescribeColumns(columnRows: seq<(string, string)>) returns (cols: seq<Column>)
    ensures cols == ColumnsOf(columnRows)
  {
    cols := [];
    for i := 0 to |columnRows|
      invariant cols == ColumnsOf(columnRows[..i])
    {
      cols := cols + [Classify(columnRows[i].0, columnRows[i].1)];
    }
    assert columnRows[..|columnRows|] == columnRows;
  }

  /** The flags of column `i`; past the described columns every flag is off and nothing is cut. */
  function ColumnAt(cols: seq<Column>, i: nat): (col: Column)
    ensures i >= |cols| ==> !col.isBlob && col.maxLength.None?
  {
    if i < |cols| then cols[i] else Column("", false, false, false, false, None)
  }

  // ---------------------------------------------------------------------
  // Decoding a fetched cell
  // ---------------------------------------------------------------------

  /** The decoders the source tries besides latin-1; each may fail (None). */
  datatype Codecs = Codecs(tis620: bytes -> Option<string>, utf8: bytes -> Option<string>, cp874: bytes -> Option<string>)

  /** latin-1 decoding: each byte is the character with the same code point. */
  function Latin1(b: bytes): (r: string)
    ensures |r| == |b|
    ensures forall i :: 0 <= i < |b| ==> r[i] as int == b[i] as int
  {
    seq(|b|, i requires 0 <= i < |b| => b[i] as int as char)
  }

  /** The fallback order: tis-620, utf-8, latin-1, cp874. */
  function Decoders(c: Codecs): seq<bytes -> Option<string>>
  {
    [c.tis620, c.utf8, (b: bytes) => Some(Latin1(b)), c.cp874]
  }

  /** The result of the first decoder that succeeds. */
  function FirstDecoded(decoders: seq<bytes -> Option<string>>, b: bytes): Option<string>
  {
    if |decoders| == 0 then None
    else if decoders[0](b).Some? then decoders[0](b)
    else FirstDecoded(decoders[1..], b)
  }

  /** The loop over the encodings, leaving at the first that succeeds. */
  method DecodeCell(c: Codecs, b: bytes) returns (s: Option<string>)
    ensures s == FirstDecoded(Decoders(c), b)
  {
    var decoders := Decoders(c);
    s := None;
    var i := 0;
    while i < |decoders| && s.None?
      invariant 0 <= i <= |decoders|
      invariant s.None? ==> FirstDecoded(decoders, b) == FirstDecoded(decoders[i..], b)
      invariant s.Some? ==> s == FirstDecoded(decoders, b)
    {
      s := decoders[i](b);
      i := i + 1;
    }
  }

  /**
   * latin-1 accepts every byte string, so decoding always succeeds and
   * cp874 is never tried.
   */
  lemma DecodeOrder(c: Codecs, b: bytes)
    ensures FirstDecoded(Decoders(c), b)
            == if c.tis620(b).Some? then c.tis620(b)
               else if c.utf8(b).Some? then c.utf8(b)
               else Some(Latin1(b))
  {
    var ds := Decoders(c);
    var rest := ds[1..][1..];
    assert rest[0](b) == Some(Latin1(b));
    assert FirstDecoded(rest, b) == Some(Latin1(b));
    assert ds[0] == c.tis620 && ds[1..][0] == c.utf8;
  }

  // ---------------------------------------------------------------------
  // Cells and rows
  // ---------------------------------------------------------------------

  /** `str(v)` for a value that is not a byte string. */
  function StrOf(v: PyValue): string
    requires !v.PyBytes?
  {
    match v
    case PyNone => "None"
    case PyInt(i) => IntToDecimal(i)
    case PyStr(s) => s
  }

  /** The bytes a binary column writes: the cell itself, or `str(v)` encoded as UTF-8. */
  function BlobBytes(v: PyValue): bytes
  {
    if v.PyBytes? then v.b else Utf8(StrOf(v))
  }

  /** The text a non-binary cell is written from; None only when every decoder fails. */
  function CellText(v: PyValue, c: Codecs): Option<string>
  {
    if v.PyBytes? then FirstDecoded(Decoders(c), v.b) else Some(StrOf(v))
  }

  /** The literal written for one cell of a column. */
  function CellLiteral(v: PyValue, col: Column, c: Codecs): string
  {
    if col.isBlob then "0x" + Hex(BlobBytes(v))
    else match CellText(v, c)
      case None => Escape(PyNone, col.maxLength)
      case Some(s) => Escape(PyStr(if s == "None" then "" else s), col.maxLength)
  }

  /** One cell: the hex branch or the decode-then-escape branch. */
  method EncodeCell(v: PyValue, col: Column, c: Codecs) returns (lit: string)
    ensures lit == CellLiteral(v, col, c)
  {
    if col.isBlob {
      var b := if v.PyBytes? then v.b else Utf8(StrOf(v));
      lit := "0x" + Hex(b);
    } else {
      var s: Option<string>;
      if v.PyBytes? {
        s := DecodeCell(c, v.b);
      } else {
        s := Some(StrOf(v));
      }
      if s == Some("None") {
        s := Some("");
      }
      lit := if s.None? then Escape(PyNone, col.maxLength) else Escape(PyStr(s.value), col.maxLength);
    }
  }

  /** Exactly the binary columns are written in hex; every other literal is quoted. */
  lemma CellKind(v: PyValue, col: Column, c: Codecs)
    ensures var lit := CellLiteral(v, col, c);
            |lit| >= 2 && (col.isBlob <==> lit[..2] == "0x")
            && (!col.isBlob ==> lit[0] == '\'' && lit[|lit| - 1] == '\'')
  {
    var lit := CellLiteral(v, col, c);
    if col.isBlob {
      assert lit == "0x" + Hex(BlobBytes(v));
    } else {
      if v.PyBytes? {
        DecodeOrder(c, v.b);
      }
      var s := CellText(v, c).value;
      var t := EscapeText(Truncate(if s == "None" then "" else s, col.maxLength));
      assert lit == "'" + t + "'";
      assert lit[0] == '\'' && lit[..2][0] != "0x"[0];
    }
  }

  /** NULL is the empty literal in a text column, but the hex of the text `None` in a binary one. */
  lemma NullCell(col: Column, c: Codecs)
    ensures CellLiteral(PyNone, col, c) == if col.isBlob then "0x4e6f6e65" else "''"
  {
    if col.isBlob {
      Utf8Ascii("None");
      var b := Utf8("None");
      assert b == [78, 111, 110, 101];
      assert Hex(b) == "4e6f6e65";
    } else {
      EscapeNoneText(col.maxLength);
    }
  }

  /** The text of a non-binary cell, as the database row gives it, reads back from its literal. */
  lemma TextCellRoundTrip(v: PyValue, col: Column, c: Codecs, rest: string)
    requires !col.isBlob
    requires |rest| == 0 || rest[0] != '\''
    ensures CellText(v, c).Some?
    ensures var s := CellText(v, c).value;
            ReadStringLiteral(CellLiteral(v, col, c) + rest)
            == Some((Truncate(if s == "None" then "" else s, col.maxLength), rest))
  {
    if v.PyBytes? {
      DecodeOrder(c, v.b);
    }
    var s := CellText(v, c).value;
    var t := if s == "None" then "" else s;
    EscapeStrRoundTrip(t, col.maxLength, rest);
  }

  /** The bytes of a binary cell read back from its literal, unless there are none. */
  lemma BlobCellRoundTrip(b: bytes, col: Column, c: Codecs)
    requires col.isBlob
    ensures var lit := CellLiteral(PyBytes(b), col, c);
            lit[..2] == "0x" && Unhex(lit[2..]) == Some(b)
            && ReadBlobLiteral(lit) == (if |b| > 0 then Some(b) else None)
  {
    EscapeBytesRoundTrip(b, None);
  }

  /**
   * An empty binary value, or an empty text in a binary column, is dumped as
   * a bare `0x`, which does not read back as a value.
   */
  lemma EmptyBlobUnreadable(col: Column, c: Codecs)
    requires col.isBlob
    ensures CellLiteral(PyBytes([]), col, c) == CellLiteral(PyStr(""), col, c) == "0x"
    ensures ReadBlobLiteral(CellLiteral(PyBytes([]), col, c)).None?
  {
    Utf8Ascii("");
  }

  /** The literal a binary cell is evidently meant to get: `''` when it holds no byte. */
  function BlobLiteral(b: bytes): (lit: string)
  {
    if |b| == 0 then "''" else "0x" + Hex(b)
  }

  /**
   * Every binary value reads back from its corrected literal, which is the
   * dumped one whenever there is at least one byte.
   */
  lemma BlobLiteralRoundTrip(b: bytes, col: Column, c: Codecs)
    requires col.isBlob
    ensures ReadBlobLiteral(BlobLiteral(b)) == Some(b)
    ensures |b| > 0 ==> BlobLiteral(b) == CellLiteral(PyBytes(b), col, c)
  {
    if |b| > 0 {
      BlobCellRoundTrip(b, col, c);
    }
  }

  /** The literals of one row: one per value, each typed by the column at its position. */
  function RowLiterals(row: seq<PyValue>, cols: seq<Column>, c: Codecs): (vals: seq<string>)
    ensures |vals| == |row|
  {
    seq(|row|, i requires 0 <= i < |row| => CellLiteral(row[i], ColumnAt(cols, i), c))
  }

  /** The loop over the values of one row. */
  method EncodeRow(row: seq<PyValue>, cols: seq<Column>, c: Codecs) returns (vals: seq<string>)
    ensures vals == RowLiterals(row, cols, c)
  {
    vals := [];
    for i := 0 to |row|
      invariant vals == RowLiterals(row[..i], cols, c)
    {
      var lit := EncodeCell(row[i], ColumnAt(cols, i), c);
      vals := vals + [lit];
    }
    assert row[..|row|] == row;
  }

  // ---------------------------------------------------------------------
  // Lines and files
  // ---------------------------------------------------------------------

  /** The three-line comment banner before each section. */
  function Banner(title: string): string
  {
    BannerRule + ("-- " + title + "\n") + BannerRule
  }

  const BannerRule: string := "-- ----------------------------\n"

  /** The one line written for a row. */
  function InsertLine(table: string, vals: seq<string>): string
  {
    "INSERT INTO `" + table + "` VALUES (" + Join(", ", vals) + ");\n"
  }

  /** One `INSERT` line per fetched row, in fetch order. */
  function RecordLines(table: string, rows: seq<seq<PyValue>>, cols: seq<Column>, c: Codecs): (lines: seq<string>)
    ensures |lines| == |rows|
    ensures forall i :: 0 <= i < |rows| ==> lines[i] == InsertLine(table, RowLiterals(rows[i], cols, c))
  {
    seq(|rows|, i requires 0 <= i < |rows| => InsertLine(table, RowLiterals(rows[i], cols, c)))
  }

  /** The records section: nothing at all for an empty table. */
  function RecordsText(table: string, rows: seq<seq<PyValue>>, cols: seq<Column>, c: Codecs): (text: string)
    ensures |rows| == 0 <==> text == ""
  {
    if |rows| == 0 then "" else Banner("Records of " + table) + Flatten(RecordLines(table, rows, cols, c))
  }

  /** The loop over the fetched rows, writing one line per row after the banner. */
  method WriteRecords(table: string, rows: seq<seq<PyValue>>, cols: seq<Column>, c: Codecs) returns (text: string)
    ensures text == RecordsText(table, rows, cols, c)
  {
    text := "";
    if |rows| > 0 {
      var written: seq<string> := [];
      for i := 0 to |rows|
        invariant written == RecordLines(table, rows[..i], cols, c)
      {
        var vals := EncodeRow(rows[i], cols, c);
        written := written + [InsertLine(table, vals)];
      }
      assert rows[..|rows|] == rows;
      text := Banner("Records of " + table) + Flatten(written);
    }
  }

  /** The values of the comment block at the top of every file. */
  datatype Source = Source(server: string, version: string, hostLine: string, database: string)

  /** The default MySQL port, used when the configured port is 0. */
  const DefaultPort: int := 3306

  /** `str(host or "localhost")`, `int(port or 3306)`, the server version or `(unknown)`, `database or ''`. */
  function SourceOf(host: string, port: int, version: Option<string>, database: string): (src: Source)
    ensures var h := if host == "" then "localhost" else host;
            var p := IntToDecimal(if port == 0 then DefaultPort else port);
            src.server == h + "_" + p && src.hostLine == h + ":" + p
    ensures src.version == if version.Some? then version.value else "(unknown)"
    ensures src.database == database
  {
    var h := if host == "" then "localhost" else host;
    var p := IntToDecimal(if port == 0 then DefaultPort else port);
    Source(h + "_" + p, if version.Some? then version.value else "(unknown)", h + ":" + p, database)
  }

  /** The comment block at the top of every file; `now` is the formatted clock reading. */
  function HeaderText(src: Source, now: string): string
  {
    "/*\n"
    + "Navicat MySQL Data Transfer\n\n"
    + "Source Server         : " + src.server + "\n"
    + "Source Server Version : " + src.version + "\n"
    + "Source Host           : " + src.hostLine + "\n"
    + "Source Database       : " + src.database + "\n\n"
    + "Target Server Type    : MYSQL\n"
    + "Target Server Version : " + src.version + "\n"
    + "File Encoding         : 65001\n\n"
    + "Date: " + now + "\n"
    + "*/\n\n"
  }

  const SetChecksOff: string := "SET FOREIGN_KEY_CHECKS=0;\n\n"

  /** The DDL text a `SHOW CREATE` gave, when there is one (`if create_sql:` rejects None and ""). */
  predicate Present(ddl: Option<string>)
  {
    ddl.Some? && ddl.value != ""
  }

  function DropTable(table: string): string { "DROP TABLE IF EXISTS `" + table + "`;\n" }

  /**
   * The structure section of a table file: nothing without CREATE text,
   * and otherwise the DROP line immediately before the CREATE text.
   */
  function TableStructure(table: string, create: Option<string>): (r: string)
    ensures r == "" <==> !Present(create)
    ensures Present(create) ==> EndsWith(r, DropTable(table) + create.value + ";\n\n")
  {
    if Present(create) then
      var tail := DropTable(table) + create.value + ";\n\n";
      SuffixOf(Banner("Table structure for " + table), tail);
      Banner("Table structure for " + table) + tail
    else ""
  }

  lemma SuffixOf<T>(a: seq<T>, b: seq<T>)
    ensures EndsWith(a + b, b)
  {
    assert (a + b)[|a + b| - |b|..] == b;
  }

  /** `{t}.sql`: header, foreign-key checks off, structure, records. */
  function TableFile(src: Source, now: string, table: string, create: Option<string>,
                     rows: seq<seq<PyValue>>, cols: seq<Column>, c: Codecs): string
  {
    HeaderText(src, now) + SetChecksOff + TableStructure(table, create) + RecordsText(table, rows, cols, c)
  }

  /** `view_{v}.sql`: the banner is always written, the DROP and the definition only when there is one. */
  function ViewFile(src: Source, now: string, view: string, definition: Option<string>): string
  {
    HeaderText(src, now) + SetChecksOff + Banner("View structure for " + view)
    + (if Present(definition) then "DROP VIEW IF EXISTS `" + view + "`;\n" + definition.value + ";\n" else "")
  }

  /** A routine is a procedure when its type, upper-cased, is `PROCEDURE`; anything else is a function. */
  predicate IsProcedure(rtype: string)
  {
    Text.Upper(rtype) == "PROCEDURE"
  }

  /** The keyword of the DROP line of a routine. */
  function RoutineKind(rtype: string): string
  {
    if IsProcedure(rtype) then "PROCEDURE" else "FUNCTION"
  }

  function DropRoutine(routine: string, rtype: string): string
  {
    "DROP " + RoutineKind(rtype) + " IF EXISTS `" + routine + "`;\n"
  }

  /** The body between `DELIMITER ;;` and `DELIMITER ;`, closed by `;;`. */
  function DelimitedBody(body: string): string
  {
    "DELIMITER ;;\n" + body + ";;\n" + "DELIMITER ;\n"
  }

  /**
   * The body section of a routine file: nothing without a body, and
   * otherwise the DROP line followed by the delimited body.
   */
  function RoutineBody(routine: string, rtype: string, body: Option<string>): (r: string)
    ensures r == "" <==> !Present(body)
    ensures Present(body) ==> StartsWith(r, DropRoutine(routine, rtype)) && EndsWith(r, DelimitedBody(body.value))
  {
    if Present(body) then
      SuffixOf(DropRoutine(routine, rtype), DelimitedBody(body.value));
      DropRoutine(routine, rtype) + DelimitedBody(body.value)
    else ""
  }

  /** `proc_{r}.sql` or `func_{r}.sql`. */
  function RoutineFile(src: Source, now: string, routine: string, rtype: string, body: Option<string>): string
  {
    HeaderText(src, now) + SetChecksOff + RoutineBody(routine, rtype, body)
  }

  /** The writes of one table file, in order: header, structure, the column loop, the row loop. */
  method WriteTable(src: Source, now: string, table: string, create: Option<string>,
                    columnRows: seq<(string, string)>, rows: seq<seq<PyValue>>, c: Codecs)
    returns (text: string)
    ensures text == TableFile(src, now, table, create, rows, ColumnsOf(columnRows), c)
  {
    text := HeaderText(src, now) + SetChecksOff + TableStructure(table, create);
    var cols := DescribeColumns(columnRows);
    var records := WriteRecords(table, rows, cols, c);
    text := text + records;
  }

  function TableFileName(table: string): string { table + ".sql" }
  function ViewFileName(view: string): string { "view_" + view + ".sql" }
  function RoutineFileName(routine: string, rtype: string): string
  {
    (if IsProcedure(rtype) then "proc_" else "func_") + routine + ".sql"
  }

  /**
   * For every routine type: the file prefix follows the DROP keyword
   * (`proc_` exactly for a `PROCEDURE`), and neither depends on the case
   * in which the type is spelled.
   */
  lemma RoutineNaming(routine: string, rtype: string)
    ensures RoutineFileName(routine, rtype) ==
              (if RoutineKind(rtype) == "PROCEDURE" then "proc_" else "func_") + routine + ".sql"
    ensures RoutineKind(rtype) == RoutineKind(Text.Upper(rtype))
    ensures RoutineFileName(routine, rtype) == RoutineFileName(routine, Text.Upper(rtype))
  {
    assert Text.Upper(Text.Upper(rtype)) == Text.Upper(rtype);
  }
}
