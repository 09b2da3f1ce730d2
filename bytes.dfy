/*
 * Byte strings as the restore scanner sees them: Python `bytes` with its
 * ASCII-only `strip`, `rstrip`, `upper`, `split(maxsplit=1)`, the lines a
 * binary file yields when iterated, and the UTF-8 encoding with which the
 * dump writer turns its text into those bytes.
 */
module Bytes {
  import opened Seqs
  import opened Wrappers

  newtype byte = x: int | 0 <= x < 256

  type bytes = seq<byte>

  const NL: byte := 10
  const CR: byte := 13

  /** ASCII whitespace as `bytes.strip()` and `bytes.split()` see it: space, \t, \n, \v, \f, \r. */
  predicate IsSpaceByte(b: byte)
  {
    b == 32 || 9 <= b <= 13
  }

  function RStrip(s: bytes): bytes { TrimEnd(s, IsSpaceByte) }
  function LStrip(s: bytes): bytes { TrimStart(s, IsSpaceByte) }
  function Strip(s: bytes): bytes { LStrip(RStrip(s)) }

  /** A stripped byte string neither starts nor ends with whitespace. */
  lemma StripEnds(s: bytes)
    ensures |Strip(s)| > 0 ==> !IsSpaceByte(Strip(s)[0]) && !IsSpaceByte(Strip(s)[|Strip(s)| - 1])
  {
    var r := RStrip(s);
    var t := Strip(s);
    if |t| > 0 {
      TrimStartSuffix(r, IsSpaceByte);
      assert t == r[|r| - |t|..];
      assert t[|t| - 1] == r[|r| - 1];
    }
  }

  /** A byte string that already ends in a non-space byte is its own `rstrip`. */
  lemma RStripNoTrailingSpace(s: bytes)
    requires |s| > 0 && !IsSpaceByte(s[|s| - 1])
    ensures RStrip(s) == s
  {
  }

  /** `rstrip` of a concatenation: the right part decides unless it is all whitespace. */
  lemma {:induction false} RStripAppend(a: bytes, b: bytes)
    ensures RStrip(a + b) == if RStrip(b) == [] then RStrip(a) else a + RStrip(b)
    decreases |b|
  {
    if |b| == 0 {
      assert a + b == a;
    } else if IsSpaceByte(b[|b| - 1]) {
      assert (a + b)[..|a + b| - 1] == a + b[..|b| - 1];
      RStripAppend(a, b[..|b| - 1]);
    }
  }

  predicate IsLowerByte(b: byte) { 97 <= b <= 122 }

  function UpperByte(b: byte): byte
  {
    if IsLowerByte(b) then b - 32 else b
  }

  /** `bytes.upper()`: only the ASCII letters a-z change. */
  function Upper(s: bytes): (r: bytes)
    ensures |r| == |s|
    ensures forall i :: 0 <= i < |s| ==> r[i] == UpperByte(s[i])
  {
    seq(|s|, i requires 0 <= i < |s| => UpperByte(s[i]))
  }

  /** The length of the leading run of non-space bytes. */
  function TokenLength(s: bytes): (n: nat)
    ensures n <= |s|
    ensures forall i :: 0 <= i < n ==> !IsSpaceByte(s[i])
    ensures n < |s| ==> IsSpaceByte(s[n])
  {
    if |s| == 0 || IsSpaceByte(s[0]) then 0 else 1 + TokenLength(s[1..])
  }

  /**
   * `s.split(maxsplit=1)[1]` for a byte string with no leading whitespace:
   * the rest after the first token and the whitespace run that follows it,
   * or None when the list has a single element (the IndexError case).
   */
  function SecondField(s: bytes): (r: Option<bytes>)
    ensures r.Some? ==> 0 < |r.value| <= |s| && !IsSpaceByte(r.value[0]) && r.value == s[|s| - |r.value|..]
  {
    var rest := LStrip(s[TokenLength(s)..]);
    TrimStartSuffix(s[TokenLength(s)..], IsSpaceByte);
    if |rest| == 0 then None else Some(rest)
  }

  /** The length of the first line of `s`: up to and including the first LF, or all of `s`. */
  function LineLength(s: bytes): (n: nat)
    ensures n <= |s|
    ensures |s| > 0 ==> n > 0
    ensures forall i :: 0 <= i < n - 1 ==> s[i] != NL
    ensures 0 < n < |s| ==> s[n - 1] == NL
  {
    if |s| == 0 then 0 else if s[0] == NL then 1 else 1 + LineLength(s[1..])
  }

  /**
   * The lines iterating a binary file yields: every line but possibly the
   * last ends with LF, and no line holds an LF before its end.
   */
  function SplitLines(s: bytes): (r: seq<bytes>)
    decreases |s|
  {
    if |s| == 0 then [] else [s[..LineLength(s)]] + SplitLines(s[LineLength(s)..])
  }

  /** A line in the sense of file iteration: non-empty, an LF only at its very end. */
  predicate IsLine(l: bytes)
  {
    |l| > 0 && forall i :: 0 <= i < |l| - 1 ==> l[i] != NL
  }

  /** Joining the lines gives the file back, and each piece is a line. */
  lemma SplitLinesFlatten(s: bytes)
    ensures Flatten(SplitLines(s)) == s
    ensures forall i :: 0 <= i < |SplitLines(s)| ==> IsLine(SplitLines(s)[i])
  {
    SplitLinesJoin(s);
    SplitLinesAreLines(s);
  }

  lemma {:induction false} SplitLinesJoin(s: bytes)
    ensures Flatten(SplitLines(s)) == s
    decreases |s|
  {
    if |s| > 0 {
      var n := LineLength(s);
      assert SplitLines(s) == [s[..n]] + SplitLines(s[n..]);
      SplitLinesJoin(s[n..]);
      FlattenCons(s[..n], SplitLines(s[n..]));
      assert s == s[..n] + s[n..];
    }
  }

  lemma {:induction false} SplitLinesAreLines(s: bytes)
    ensures forall i :: 0 <= i < |SplitLines(s)| ==> IsLine(SplitLines(s)[i])
    decreases |s|
  {
    if |s| > 0 {
      SplitLinesAreLines(s[LineLength(s)..]);
    }
  }

  /** A single line ending in LF is split off on its own. */
  lemma {:induction false} SplitLinesAppendLine(l: bytes, rest: bytes)
    requires IsLine(l) && l[|l| - 1] == NL
    ensures SplitLines(l + rest) == [l] + SplitLines(rest)
  {
    var s := l + rest;
    LineLengthOfLine(l);
    LineLengthPrefix(l, rest);
    assert s[..|l|] == l;
    assert s[|l|..] == rest;
  }

  lemma {:induction false} LineLengthOfLine(l: bytes)
    requires IsLine(l)
    ensures LineLength(l) == |l|
  {
    if l[0] != NL && |l| > 1 {
      LineLengthOfLine(l[1..]);
    }
  }

  /** A non-empty text without an LF is one line. */
  lemma {:induction false} SplitLinesNoNewline(l: bytes)
    requires |l| > 0 && NL !in l
    ensures SplitLines(l) == [l]
  {
    LineLengthNoNewline(l);
    assert l[..|l|] == l;
    assert l[|l|..] == [];
  }

  lemma {:induction false} LineLengthNoNewline(l: bytes)
    requires NL !in l
    ensures LineLength(l) == |l|
  {
    if |l| > 0 {
      LineLengthNoNewline(l[1..]);
    }
  }

  /** Splitting distributes over a concatenation whose left part ends with LF. */
  lemma {:induction false} SplitLinesAppend(a: bytes, b: bytes)
    requires |a| == 0 || a[|a| - 1] == NL
    ensures SplitLines(a + b) == SplitLines(a) + SplitLines(b)
    decreases |a|
  {
    if |a| == 0 {
      assert a + b == b;
    } else {
      var n := LineLength(a);
      LineLengthPrefix(a, b);
      assert (a + b)[..n] == a[..n];
      assert (a + b)[n..] == a[n..] + b;
      SplitLinesAppend(a[n..], b);
    }
  }

  lemma {:induction false} LineLengthPrefix(a: bytes, b: bytes)
    requires |a| > 0 && a[|a| - 1] == NL
    ensures LineLength(a + b) == LineLength(a)
    decreases |a|
  {
    if a[0] != NL {
      assert (a + b)[1..] == a[1..] + b;
      LineLengthPrefix(a[1..], b);
    }
  }

  /** The UTF-8 encoding of one Unicode scalar value. */
  function Utf8Char(c: char): (r: bytes)
    ensures 1 <= |r| <= 4
    ensures (c as int < 128) == (|r| == 1)
    ensures c as int < 128 ==> r == [c as int as byte]
    ensures c as int >= 128 ==> forall i :: 0 <= i < |r| ==> r[i] >= 128
  {
    var n := c as int;
    if n < 0x80 then [n as byte]
    else if n < 0x800 then [(0xC0 + n / 64) as byte, (0x80 + n % 64) as byte]
    else if n < 0x10000 then
      [(0xE0 + n / 4096) as byte, (0x80 + (n / 64) % 64) as byte, (0x80 + n % 64) as byte]
    else
      [(0xF0 + n / 262144) as byte, (0x80 + (n / 4096) % 64) as byte,
       (0x80 + (n / 64) % 64) as byte, (0x80 + n % 64) as byte]
  }

  /** `s.encode('utf-8')`, as a text file opened with encoding="utf-8" writes it. */
  function Utf8(s: string): (r: bytes)
  {
    if |s| == 0 then [] else Utf8(s[..|s| - 1]) + Utf8Char(s[|s| - 1])
  }

  lemma {:induction false} Utf8Append(a: string, b: string)
    ensures Utf8(a + b) == Utf8(a) + Utf8(b)
    decreases |b|
  {
    if |b| == 0 {
      assert a + b == a;
    } else {
      assert (a + b)[..|a + b| - 1] == a + b[..|b| - 1];
      Utf8Append(a, b[..|b| - 1]);
    }
  }

  /** Text made only of ASCII characters encodes byte for byte. */
  predicate IsAscii(s: string)
  {
    forall i :: 0 <= i < |s| ==> s[i] as int < 128
  }

  lemma {:induction false} Utf8Ascii(s: string)
    requires IsAscii(s)
    ensures |Utf8(s)| == |s|
    ensures forall i :: 0 <= i < |s| ==> Utf8(s)[i] == s[i] as int as byte
    decreases |s|
  {
    if |s| > 0 {
      Utf8Ascii(s[..|s| - 1]);
    }
  }

  /** An ASCII byte occurs in the encoding only where its character occurs in the text. */
  lemma {:induction false} Utf8AsciiByte(s: string, c: char)
    requires c as int < 128
    requires c !in s
    ensures (c as int as byte) !in Utf8(s)
    decreases |s|
  {
    if |s| > 0 {
      Utf8AsciiByte(s[..|s| - 1], c);
      assert s[|s| - 1] != c;
    }
  }
}
