/*
 * The access-token refresh script (refresh.py): it reads the refresh
 * token from the token file, posts it to the token service, chooses the
 * new access token from the response and rewrites the `access-token=`
 * line of the file, keeping every other line.  The token file is its
 * text, the service is a parameter `post` from the refresh token to the
 * response, and the response's JSON decoding is carried in the response
 * (None when the body is not JSON).
 */
module Refresh {
  import opened Wrappers
  import opened Seqs
  import opened Text

  // ---------------------------------------------------------------------
  // Lines of the token file (`readlines`)
  // ---------------------------------------------------------------------

  predicate IsNewline(c: char) { c == '\n' }

  /** The index of the first newline of `s`, or `|s|`. */
  function LineEnd(s: string): (k: nat)
    ensures k <= |s| && (k < |s| ==> s[k] == '\n')
    ensures forall j :: 0 <= j < k ==> s[j] != '\n'
  {
    if |s| == 0 || s[0] == '\n' then 0 else 1 + LineEnd(s[1..])
  }

  /** `readlines()`: each line keeps its newline; a last line without one is kept as it is. */
  function ReadLines(text: string): (lines: seq<string>)
    ensures Flatten(lines) == text
    decreases |text|
  {
    if |text| == 0 then []
    else
      var k := LineEnd(text);
      if k == |text| then
        assert Flatten([text]) == Flatten([text][..0]) + text;
        [text]
      else
        var rest := ReadLines(text[k + 1..]);
        FlattenCons(text[..k + 1], rest);
        [text[..k + 1]] + rest
  }

  /** What `readlines` can return: non-empty lines, a newline only at a line's end, every line but the last ended. */
  ghost predicate WellFormed(lines: seq<string>)
  {
    forall i :: 0 <= i < |lines| ==>
      |lines[i]| > 0 && '\n' !in lines[i][..|lines[i]| - 1] &&
      (i < |lines| - 1 ==> lines[i][|lines[i]| - 1] == '\n')
  }

  lemma {:induction false} ReadLinesWellFormed(text: string)
    ensures WellFormed(ReadLines(text))
    decreases |text|
  {
    if |text| > 0 {
      var k := LineEnd(text);
      if k < |text| {
        ReadLinesWellFormed(text[k + 1..]);
        assert '\n' !in text[..k + 1][..k];
      } else {
        assert '\n' !in text[..|text| - 1];
      }
    }
  }

  lemma {:induction false} LineEndAppend(a: string, b: string)
    requires '\n' !in a
    ensures LineEnd(a + b) == |a| + LineEnd(b)
  {
    if |a| > 0 {
      assert (a + b)[1..] == a[1..] + b;
      LineEndAppend(a[1..], b);
    } else {
      assert a + b == b;
    }
  }

  /** A text without newline is read as one line. */
  lemma ReadLinesUnended(s: string)
    requires |s| > 0 && '\n' !in s[..|s| - 1] && s[|s| - 1] != '\n'
    ensures ReadLines(s) == [s]
  {
    assert '\n' !in s by {
      assert s == s[..|s| - 1] + [s[|s| - 1]];
    }
    assert LineEnd(s) == |s|;
  }

  /** A text with a single newline, at its end, is read as one line. */
  lemma ReadLinesEnded(s: string)
    requires '\n' !in s
    ensures ReadLines(s + "\n") == [s + "\n"]
  {
    LineEndAppend(s, "\n");
    assert (s + "\n")[..|s| + 1] == s + "\n" && (s + "\n")[|s| + 1..] == [];
  }

  /** Dropping the first line keeps the lines well formed. */
  lemma WellFormedTail(lines: seq<string>)
    requires |lines| > 0 && WellFormed(lines)
    ensures WellFormed(lines[1..])
  {
    forall i | 0 <= i < |lines| - 1 ensures lines[1..][i] == lines[i + 1] { }
  }

  /** Reading back the text of well-formed lines gives the same lines. */
  lemma {:induction false} ReadLinesOfFlatten(lines: seq<string>)
    requires WellFormed(lines)
    ensures ReadLines(Flatten(lines)) == lines
  {
    if |lines| > 0 {
      var l, rest := lines[0], lines[1..];
      assert lines == [l] + rest;
      FlattenCons(l, rest);
      var text := Flatten(lines);
      var a := l[..|l| - 1];
      if l[|l| - 1] == '\n' {
        assert text == a + ("\n" + Flatten(rest));
        LineEndAppend(a, "\n" + Flatten(rest));
        assert text[..|a| + 1] == l && text[|a| + 1..] == Flatten(rest);
        WellFormedTail(lines);
        ReadLinesOfFlatten(rest);
      } else {
        assert |rest| == 0;
        ReadLinesUnended(l);
        assert text == l;
      }
    }
  }

  // ---------------------------------------------------------------------
  // Reading the refresh token
  // ---------------------------------------------------------------------

  const RefreshPrefix := "refresh-token="

  predicate IsRefreshLine(line: string) { StartsWith(Strip(line), RefreshPrefix) }

  /** The text after the first `=` of the first stripped line starting `refresh-token=`. */
  function RefreshTokenOf(lines: seq<string>): Option<string>
  {
    if |lines| == 0 then None
    else if IsRefreshLine(lines[0]) then Some(Strip(lines[0])[|RefreshPrefix|..])
    else RefreshTokenOf(lines[1..])
  }

  /** The token found is that of the first refresh line; there is none exactly when no line is one. */
  lemma {:induction false} RefreshTokenOfFirst(lines: seq<string>)
    ensures RefreshTokenOf(lines).None? <==> forall i :: 0 <= i < |lines| ==> !IsRefreshLine(lines[i])
    ensures RefreshTokenOf(lines).Some? ==>
      exists i :: 0 <= i < |lines| && Strip(lines[i]) == RefreshPrefix + RefreshTokenOf(lines).value &&
        forall j :: 0 <= j < i ==> !IsRefreshLine(lines[j])
  {
    if |lines| > 0 && !IsRefreshLine(lines[0]) {
      RefreshTokenOfFirst(lines[1..]);
      if RefreshTokenOf(lines).Some? {
        var i :| 0 <= i < |lines[1..]| && Strip(lines[1..][i]) == RefreshPrefix + RefreshTokenOf(lines).value &&
          forall j :: 0 <= j < i ==> !IsRefreshLine(lines[1..][j]);
        assert forall j :: 0 <= j < i + 1 ==> !IsRefreshLine(lines[j]) by {
          forall j | 0 < j < i + 1 ensures !IsRefreshLine(lines[j]) {
            assert lines[j] == lines[1..][j - 1];
          }
        }
      } else {
        forall i | 0 < i < |lines| ensures !IsRefreshLine(lines[i]) {
          assert lines[i] == lines[1..][i - 1];
        }
      }
    } else if |lines| > 0 {
      assert Strip(lines[0]) == RefreshPrefix + Strip(lines[0])[|RefreshPrefix|..];
    }
  }

  /** The `for ... else` loop: stops at the first refresh line. */
  method ReadRefreshToken(lines: seq<string>) returns (t: Option<string>)
    ensures t == RefreshTokenOf(lines)
  {
    var i := 0;
    while i < |lines|
      invariant i <= |lines| && RefreshTokenOf(lines) == RefreshTokenOf(lines[i..])
    {
      var line := Strip(lines[i]);
      if StartsWith(line, RefreshPrefix) {
        return Some(line[|RefreshPrefix|..]);
      }
      assert lines[i..][1..] == lines[i + 1..];
      i := i + 1;
    }
    return None;
  }

  // ---------------------------------------------------------------------
  // Choosing the new access token
  // ---------------------------------------------------------------------

  /** A decoded JSON body: a string, an object, `null`, or any other value. */
  datatype Json = JStr(s: string) | JDict(fields: map<string, Json>) | JNull | JOther

  /** The service's answer: its body text and, when the body is JSON, its decoding. */
  datatype Response = Response(text: string, json: Option<Json>)

  const TokenKeys := ["access_token", "access-token", "token"]

  /**
   * `parsed` is None after `response.json()`: the body is not JSON, or it
   * is the JSON value `null`, which decodes to None.
   */
  predicate ParsedNone(r: Response)
  {
    r.json.None? || r.json.value.JNull?
  }

  /** An object reporting an error. */
  predicate IsErrorDict(j: Json)
  {
    j.JDict? && ("error" in j.fields || "error_description" in j.fields)
  }

  /** `k` is a key of `fields` whose value is a string that is not blank. */
  predicate HoldsToken(fields: map<string, Json>, k: string)
  {
    k in fields && fields[k].JStr? && Strip(fields[k].s) != ""
  }

  /** The stripped value of the first key of `keys` holding a string that is not blank. */
  function FieldToken(fields: map<string, Json>, keys: seq<string>): (t: Option<string>)
    ensures t.Some? ==> t.value != "" && Strip(t.value) == t.value
    ensures t.Some? ==>
      exists i :: 0 <= i < |keys| && HoldsToken(fields, keys[i]) && Strip(fields[keys[i]].s) == t.value
        && forall j :: 0 <= j < i ==> !HoldsToken(fields, keys[j])
    ensures t.None? <==> forall i :: 0 <= i < |keys| ==> !HoldsToken(fields, keys[i])
  {
    if |keys| == 0 then None
    else
      var k := keys[0];
      if HoldsToken(fields, k) then
        StripStripped(fields[k].s);
        Some(Strip(fields[k].s))
      else
        var t := FieldToken(fields, keys[1..]);
        assert forall i :: 0 < i < |keys| ==> keys[i] == keys[1..][i - 1];
        t
  }

  /** The stripped body, when it is not blank. */
  function RawToken(text: string): (t: Option<string>)
    ensures t.Some? ==> t.value != "" && Strip(t.value) == t.value
  {
    if Strip(text) != "" then
      StripStripped(text);
      Some(Strip(text))
    else None
  }

  /**
   * The token chosen as written: an error object resets the decoded
   * body to None, which sends it to the raw-body fallback.
   */
  function ChosenAsWritten(r: Response): (t: Option<string>)
    ensures t.Some? ==> t.value != "" && Strip(t.value) == t.value
  {
    if ParsedNone(r) || IsErrorDict(r.json.value) then RawToken(r.text)
    else if r.json.value.JDict? then FieldToken(r.json.value.fields, TokenKeys)
    else None
  }

  /**
   * The token chosen as intended: the raw body only when `parsed` is None
   * (a body that is not JSON, or `null`), nothing for an error object, a
   * token field of any other object.
   */
  function Chosen(r: Response): (t: Option<string>)
    ensures t.Some? ==> t.value != "" && Strip(t.value) == t.value
  {
    if ParsedNone(r) then RawToken(r.text)
    else if IsErrorDict(r.json.value) then None
    else if r.json.value.JDict? then FieldToken(r.json.value.fields, TokenKeys)
    else None
  }

  /** The error response that shows the difference: the error text itself becomes the token. */
  const ErrorResponse := Response("{\"error\":\"invalid_grant\"}", Some(JDict(map["error" := JStr("invalid_grant")])))

  /** As written, an error object's body is written to the file as the access token. */
  lemma ErrorBodyChosenAsWritten()
    ensures ChosenAsWritten(ErrorResponse) == Some(ErrorResponse.text)
  {
    var text := ErrorResponse.text;
    assert IsErrorDict(ErrorResponse.json.value);
    assert RStrip(text) == text;
    assert LStrip(text) == text;
  }

  /** The reply whose body is the JSON value `null`. */
  const NullResponse := Response("null", Some(JNull))

  /** A `null` reply leaves `parsed` None, so the body text `null` itself is written as the access token. */
  lemma NullBodyChosen()
    ensures ChosenAsWritten(NullResponse) == Chosen(NullResponse) == Some("null")
  {
    assert RStrip("null") == "null";
    assert LStrip("null") == "null";
  }

  /** An error object never yields a token, so the file is kept. */
  lemma ChosenSkipsErrors(r: Response)
    requires r.json.Some? && IsErrorDict(r.json.value)
    ensures Chosen(r) == None
  {
  }

  /**
   * Where a token comes from: the stripped raw body of a response that
   * `response.json()` gives None for, or the stripped value of one of the
   * token keys of a non-error object; it is never blank and is already
   * stripped.  For every response but an error object this is also the
   * token chosen as written.
   */
  lemma ChosenSource(r: Response)
    ensures Chosen(r).Some? ==> Chosen(r).value != "" && Strip(Chosen(r).value) == Chosen(r).value
    ensures Chosen(r).Some? && ParsedNone(r) ==> Chosen(r).value == Strip(r.text)
    ensures Chosen(r).Some? && !ParsedNone(r) ==>
      r.json.value.JDict? && !IsErrorDict(r.json.value) &&
      exists i :: 0 <= i < |TokenKeys| && TokenKeys[i] in r.json.value.fields &&
        r.json.value.fields[TokenKeys[i]].JStr? &&
        Strip(r.json.value.fields[TokenKeys[i]].s) == Chosen(r).value
    ensures !(r.json.Some? && IsErrorDict(r.json.value)) ==> Chosen(r) == ChosenAsWritten(r)
  {
  }

  // ---------------------------------------------------------------------
  // Rewriting the access-token line
  // ---------------------------------------------------------------------

  const AccessPrefix := "access-token="

  /** A line that `rstrip('\n')` leaves starting with `access-token=`. */
  predicate IsAccessLine(line: string) { StartsWith(TrimEnd(line, IsNewline), AccessPrefix) }

  predicate HasAccessLine(lines: seq<string>)
  {
    exists i :: 0 <= i < |lines| && IsAccessLine(lines[i])
  }

  function AccessLine(token: string): string { AccessPrefix + token + "\n" }

  /** Every access-token line replaced by the new one, every other line kept. */
  function Replaced(lines: seq<string>, token: string): (r: seq<string>)
    ensures |r| == |lines|
    ensures forall i :: 0 <= i < |lines| ==> r[i] == if IsAccessLine(lines[i]) then AccessLine(token) else lines[i]
  {
    seq(|lines|, i requires 0 <= i < |lines| => if IsAccessLine(lines[i]) then AccessLine(token) else lines[i])
  }

  /** As written: the new line is appended after the last line whether or not that line is ended. */
  function RewrittenAsWritten(lines: seq<string>, token: string): (r: seq<string>)
    ensures |r| == if HasAccessLine(lines) then |lines| else |lines| + 1
  {
    Replaced(lines, token) + (if HasAccessLine(lines) then [] else [AccessLine(token)])
  }

  /** The lines with the last one ended by a newline. */
  function Terminated(lines: seq<string>): (r: seq<string>)
    ensures |r| == |lines| && (|lines| > 0 ==> r[..|lines| - 1] == lines[..|lines| - 1])
    ensures |lines| > 0 ==> TrimEnd(r[|r| - 1], IsNewline) == TrimEnd(lines[|lines| - 1], IsNewline)
    ensures |lines| > 0 ==> r[|r| - 1] != [] && r[|r| - 1][|r[|r| - 1]| - 1] == '\n'
  {
    if |lines| > 0 && !(|lines[|lines| - 1]| > 0 && lines[|lines| - 1][|lines[|lines| - 1]| - 1] == '\n') then
      var last := lines[|lines| - 1];
      assert (last + "\n")[..|last|] == last;
      lines[..|lines| - 1] + [last + "\n"]
    else lines
  }

  /** As intended: the new line is appended on a line of its own. */
  function Rewritten(lines: seq<string>, token: string): (r: seq<string>)
    ensures |r| == if HasAccessLine(lines) then |lines| else |lines| + 1
  {
    if HasAccessLine(lines) then Replaced(lines, token) else Terminated(lines) + [AccessLine(token)]
  }

  /** The file is empty or its last line ends with a newline. */
  predicate LastEnded(lines: seq<string>)
  {
    |lines| == 0 || (|lines[|lines| - 1]| > 0 && lines[|lines| - 1][|lines[|lines| - 1]| - 1] == '\n')
  }

  /**
   * The rewrite as written and as intended differ only on a file with no
   * access-token line whose last line has no newline.
   */
  lemma RewrittenAgrees(lines: seq<string>, token: string)
    ensures Rewritten(lines, token) == RewrittenAsWritten(lines, token) <==> HasAccessLine(lines) || LastEnded(lines)
  {
    if !HasAccessLine(lines) {
      ReplacedNone(lines, token);
      if !LastEnded(lines) {
        var n := |lines| - 1;
        assert Rewritten(lines, token)[n] != RewrittenAsWritten(lines, token)[n];
      }
    }
  }

  /**
   * As written, when the file has no access-token line and its last line
   * has no newline (a file holding just `refresh-token=R`, say), the new
   * line is glued to that last line: reading the file back gives one
   * line fewer than intended and no access-token line at all.
   */
  lemma UnendedLineGluedAsWritten(lines: seq<string>, token: string)
    requires WellFormed(lines) && '\n' !in token && !HasAccessLine(lines)
    requires |lines| > 0 && lines[|lines| - 1][|lines[|lines| - 1]| - 1] != '\n'
    ensures var n := |lines| - 1;
      var after := ReadLines(Flatten(RewrittenAsWritten(lines, token)));
      after == lines[..n] + [lines[n] + AccessLine(token)] && !HasAccessLine(after)
  {
    var n := |lines| - 1;
    var glued := lines[..n] + [lines[n] + AccessLine(token)];
    ReplacedNone(lines, token);
    FlattenGlued(lines, AccessLine(token));
    GluedLines(lines, token);
    ReadLinesOfFlatten(glued);
  }

  /** Appending a piece after the last one is the same text as gluing it to the last one. */
  lemma FlattenGlued(lines: seq<string>, a: string)
    requires |lines| > 0
    ensures Flatten(lines + [a]) == Flatten(lines[..|lines| - 1] + [lines[|lines| - 1] + a])
  {
    var n := |lines| - 1;
    var pre := lines[..n];
    calc {
      Flatten(lines + [a]);
    == { FlattenSnoc(lines, a); }
      Flatten(lines) + a;
    == { assert lines == pre + lines[n..]; assert lines[n..] == [lines[n]]; FlattenSnoc(pre, lines[n]); }
      Flatten(pre) + lines[n] + a;
    == { AppendAssoc(Flatten(pre), lines[n], a); FlattenSnoc(pre, lines[n] + a); }
      Flatten(pre + [lines[n] + a]);
    }
  }

  /** Line `i` of the glued lines: well formed, and not an access-token line. */
  lemma GluedAt(lines: seq<string>, token: string, i: nat)
    requires WellFormed(lines) && '\n' !in token && !HasAccessLine(lines)
    requires |lines| > 0 && lines[|lines| - 1][|lines[|lines| - 1]| - 1] != '\n'
    requires i < |lines|
    ensures var n := |lines| - 1;
      var g := (lines[..n] + [lines[n] + AccessLine(token)])[i];
      |g| > 0 && '\n' !in g[..|g| - 1] && (i < n ==> g[|g| - 1] == '\n') && !IsAccessLine(g)
  {
    var n := |lines| - 1;
    var glued := lines[..n] + [lines[n] + AccessLine(token)];
    assert !IsAccessLine(lines[i]);
    if i < n {
      assert glued[i] == lines[i];
    } else {
      var last, a := lines[n], AccessLine(token);
      assert glued[i] == last + a;
      AccessLineShape(token);
      assert '\n' !in last by {
        assert last == last[..|last| - 1] + [last[|last| - 1]];
      }
      assert (last + a)[..|last + a| - 1] == last + a[..|a| - 1];
      GluedNotAccess(last, a);
    }
  }

  /** The glued lines are well formed and have no access-token line. */
  lemma GluedLines(lines: seq<string>, token: string)
    requires WellFormed(lines) && '\n' !in token && !HasAccessLine(lines)
    requires |lines| > 0 && lines[|lines| - 1][|lines[|lines| - 1]| - 1] != '\n'
    ensures var n := |lines| - 1;
      var glued := lines[..n] + [lines[n] + AccessLine(token)];
      WellFormed(glued) && !HasAccessLine(glued)
  {
    var n := |lines| - 1;
    var glued := lines[..n] + [lines[n] + AccessLine(token)];
    forall i | 0 <= i < |glued|
      ensures |glued[i]| > 0 && '\n' !in glued[i][..|glued[i]| - 1]
      ensures (i < n ==> glued[i][|glued[i]| - 1] == '\n') && !IsAccessLine(glued[i])
    {
      GluedAt(lines, token, i);
    }
  }

  /** A line that is not an access-token line stays one when the new line is glued to it. */
  lemma GluedNotAccess(last: string, a: string)
    requires |last| > 0 && '\n' !in last && !IsAccessLine(last)
    requires StartsWith(a, AccessPrefix)
    ensures !IsAccessLine(last + a)
  {
    var p := AccessPrefix;
    var s := last + a;
    var t := TrimEnd(s, IsNewline);
    assert s[|last| + |p| - 1] == a[|p| - 1] == '=';
    assert |t| >= |last| + |p|;
    if |last| >= |p| {
      assert TrimEnd(last, IsNewline) == last;
      assert t[..|p|] == last[..|p|];
    } else {
      assert t[|p| - 1] == p[|p| - 1 - |last|];
      assert forall k :: 0 <= k < |p| - 1 ==> p[k] != '=';
    }
  }

  /** The new access-token line is a well-formed last line. */
  lemma AccessLineShape(token: string)
    requires '\n' !in token
    ensures var a := AccessLine(token); |a| > 0 && a[|a| - 1] == '\n' && '\n' !in a[..|a| - 1]
  {
    var a := AccessLine(token);
    assert a[..|a| - 1] == AccessPrefix + token;
  }

  /** With an access-token line present, the rewrite replaces lines in place. */
  lemma RewrittenInPlace(lines: seq<string>, token: string)
    requires WellFormed(lines) && '\n' !in token && HasAccessLine(lines)
    ensures WellFormed(Rewritten(lines, token))
  {
    AccessLineShape(token);
  }

  /** Ending a line with a newline changes neither its stripped text nor its text before the newlines. */
  lemma NewlineEnded(l: string)
    ensures Strip(l + "\n") == Strip(l) && TrimEnd(l + "\n", IsNewline) == TrimEnd(l, IsNewline)
  {
    assert (l + "\n")[..|l|] == l;
  }

  /** Line `i` after ending the last line: ended, and with the content it had. */
  lemma TerminatedAt(lines: seq<string>, i: nat)
    requires WellFormed(lines) && i < |lines|
    ensures var t := Terminated(lines);
      |t[i]| > 0 && '\n' !in t[i][..|t[i]| - 1] && t[i][|t[i]| - 1] == '\n' &&
      Strip(t[i]) == Strip(lines[i]) && TrimEnd(t[i], IsNewline) == TrimEnd(lines[i], IsNewline)
  {
    var t := Terminated(lines);
    var n := |lines| - 1;
    var l := lines[i];
    if i < n {
      assert t[i] == t[..n][i];
    } else if t[n] != l {
      assert t[n] == l + "\n";
      assert '\n' !in l by {
        assert l == l[..|l| - 1] + [l[|l| - 1]];
      }
      assert t[n][..|t[n]| - 1] == l;
      NewlineEnded(l);
    }
  }

  /** Ending the last line keeps the lines well formed and each line's content. */
  lemma TerminatedLines(lines: seq<string>)
    requires WellFormed(lines)
    ensures var t := Terminated(lines);
      (forall i :: 0 <= i < |t| ==> |t[i]| > 0 && '\n' !in t[i][..|t[i]| - 1] && t[i][|t[i]| - 1] == '\n') &&
      forall i :: 0 <= i < |lines| ==>
        Strip(t[i]) == Strip(lines[i]) && TrimEnd(t[i], IsNewline) == TrimEnd(lines[i], IsNewline)
  {
    forall i | 0 <= i < |lines| {
      TerminatedAt(lines, i);
    }
  }

  /** Ended lines followed by one more line are well formed. */
  lemma EndedSnoc(t: seq<string>, a: string)
    requires forall i :: 0 <= i < |t| ==> |t[i]| > 0 && '\n' !in t[i][..|t[i]| - 1] && t[i][|t[i]| - 1] == '\n'
    requires |a| > 0 && '\n' !in a[..|a| - 1]
    ensures WellFormed(t + [a])
  {
  }

  /** Without an access-token line, the rewrite ends the last line and appends the new one. */
  lemma RewrittenAppended(lines: seq<string>, token: string)
    requires WellFormed(lines) && '\n' !in token && !HasAccessLine(lines)
    ensures WellFormed(Rewritten(lines, token))
    ensures forall i :: 0 <= i < |lines| ==>
      Strip(Rewritten(lines, token)[i]) == Strip(lines[i]) &&
      TrimEnd(Rewritten(lines, token)[i], IsNewline) == TrimEnd(lines[i], IsNewline)
  {
    AccessLineShape(token);
    TerminatedLines(lines);
    var r := Rewritten(lines, token);
    var t := Terminated(lines);
    assert r == t + [AccessLine(token)];
    EndedSnoc(t, AccessLine(token));
  }

  /** The rewrite of the file's lines keeps them well formed, and keeps each line's content unless it is an access-token line. */
  lemma RewrittenLines(lines: seq<string>, token: string)
    requires WellFormed(lines) && '\n' !in token
    ensures var r := Rewritten(lines, token);
      WellFormed(r) &&
      |r| == |lines| + (if HasAccessLine(lines) then 0 else 1) &&
      (forall i :: 0 <= i < |lines| ==>
        if IsAccessLine(lines[i]) then r[i] == AccessLine(token)
        else TrimEnd(r[i], IsNewline) == TrimEnd(lines[i], IsNewline) && Strip(r[i]) == Strip(lines[i])) &&
      (!HasAccessLine(lines) ==> r[|lines|] == AccessLine(token))
  {
    if HasAccessLine(lines) {
      RewrittenInPlace(lines, token);
    } else {
      RewrittenAppended(lines, token);
    }
  }

  /** The rewritten lines have an access-token line, and every one of them holds the new token. */
  lemma RewrittenAccess(lines: seq<string>, token: string)
    requires WellFormed(lines) && '\n' !in token
    ensures var r := Rewritten(lines, token);
      HasAccessLine(r) && forall i :: 0 <= i < |r| && IsAccessLine(r[i]) ==> r[i] == AccessLine(token)
  {
    var r := Rewritten(lines, token);
    var a := AccessLine(token);
    assert TrimEnd(a, IsNewline) == AccessPrefix + token by {
      assert a[..|a| - 1] == AccessPrefix + token;
    }
    assert IsAccessLine(a);
    RewrittenLines(lines, token);
    if HasAccessLine(lines) {
      var i :| 0 <= i < |lines| && IsAccessLine(lines[i]);
      assert r[i] == a;
    } else {
      assert r[|lines|] == a;
      forall i | 0 <= i < |lines| ensures !IsAccessLine(r[i]) {
        assert TrimEnd(r[i], IsNewline) == TrimEnd(lines[i], IsNewline);
        assert !IsAccessLine(lines[i]);
      }
    }
  }

  /** A refresh line is not an access line, whatever its newline. */
  lemma RefreshNotAccess(line: string)
    requires IsAccessLine(line)
    ensures !IsRefreshLine(line)
  {
    var t := TrimEnd(line, IsNewline);
    assert t[0] == 'a' && line[0] == 'a';
    assert RStrip(line)[0] == 'a';
    assert Strip(line)[0] == 'a';
  }

  /** Lines that agree on refresh lines give the same refresh token. */
  lemma {:induction false} RefreshTokenAgrees(a: seq<string>, b: seq<string>)
    requires |a| <= |b|
    requires forall i :: 0 <= i < |a| ==>
      (IsRefreshLine(a[i]) <==> IsRefreshLine(b[i])) && (IsRefreshLine(a[i]) ==> Strip(a[i]) == Strip(b[i]))
    requires forall i :: |a| <= i < |b| ==> !IsRefreshLine(b[i])
    ensures RefreshTokenOf(a) == RefreshTokenOf(b)
  {
    if |b| > 0 {
      if |a| > 0 {
        RefreshTokenAgrees(a[1..], b[1..]);
      } else {
        RefreshTokenAgrees(a, b[1..]);
      }
    }
  }

  /** The rewrite keeps the refresh token. */
  lemma RewrittenKeepsRefresh(lines: seq<string>, token: string)
    requires WellFormed(lines) && '\n' !in token
    ensures RefreshTokenOf(Rewritten(lines, token)) == RefreshTokenOf(lines)
  {
    var r := Rewritten(lines, token);
    RewrittenLines(lines, token);
    RewrittenAccess(lines, token);
    forall i | 0 <= i < |lines|
      ensures (IsRefreshLine(lines[i]) <==> IsRefreshLine(r[i])) && (IsRefreshLine(lines[i]) ==> Strip(lines[i]) == Strip(r[i]))
    {
      if IsAccessLine(lines[i]) {
        RefreshNotAccess(lines[i]);
        RefreshNotAccess(r[i]);
      }
    }
    forall i | |lines| <= i < |r| ensures !IsRefreshLine(r[i]) {
      RefreshNotAccess(r[i]);
    }
    RefreshTokenAgrees(lines, r);
  }

  lemma ReplacedSnoc(lines: seq<string>, k: nat, token: string)
    requires k < |lines|
    ensures Replaced(lines[..k + 1], token) ==
      Replaced(lines[..k], token) + [if IsAccessLine(lines[k]) then AccessLine(token) else lines[k]]
  {
    assert forall i :: 0 <= i < k ==> lines[..k + 1][i] == lines[..k][i];
  }

  lemma HasAccessLineSnoc(lines: seq<string>, k: nat)
    requires k < |lines|
    ensures HasAccessLine(lines[..k + 1]) <==> HasAccessLine(lines[..k]) || IsAccessLine(lines[k])
  {
    if HasAccessLine(lines[..k + 1]) && !IsAccessLine(lines[k]) {
      var i :| 0 <= i < k + 1 && IsAccessLine(lines[..k + 1][i]);
      assert lines[..k + 1][i] == lines[..k][i];
    }
    if HasAccessLine(lines[..k]) {
      var i :| 0 <= i < k && IsAccessLine(lines[..k][i]);
      assert lines[..k + 1][i] == lines[..k][i];
    }
    assert lines[..k + 1][k] == lines[k];
  }

  /** Without access-token lines, replacing changes nothing. */
  lemma ReplacedNone(lines: seq<string>, token: string)
    requires !HasAccessLine(lines)
    ensures Replaced(lines, token) == lines
  {
  }

  /** The loop of lines 67-74: each access-token line replaced as it is met, and whether one was met. */
  method ReplaceLines(lines: seq<string>, token: string) returns (newLines: seq<string>, found: bool)
    ensures newLines == Replaced(lines, token)
    ensures found <==> HasAccessLine(lines)
  {
    found := false;
    newLines := [];
    for k := 0 to |lines|
      invariant newLines == Replaced(lines[..k], token)
      invariant found <==> HasAccessLine(lines[..k])
    {
      ReplacedSnoc(lines, k, token);
      HasAccessLineSnoc(lines, k);
      if IsAccessLine(lines[k]) {
        newLines := newLines + [AccessLine(token)];
        found := true;
      } else {
        newLines := newLines + [lines[k]];
      }
    }
    assert lines[..|lines|] == lines;
  }

  /**
   * Lines 67-77 with the last line ended before the new line is
   * appended: each access-token line is replaced as it is met, and the
   * new line is appended when none was met.
   */
  method RewriteLines(lines: seq<string>, token: string) returns (newLines: seq<string>)
    ensures newLines == Rewritten(lines, token)
  {
    var found;
    newLines, found := ReplaceLines(lines, token);
    if !found {
      ReplacedNone(lines, token);
      assert newLines == lines;
      var n := |newLines|;
      if n > 0 && !(|newLines[n - 1]| > 0 && newLines[n - 1][|newLines[n - 1]| - 1] == '\n') {
        newLines := newLines[..n - 1] + [newLines[n - 1] + "\n"];
      }
      newLines := newLines + [AccessLine(token)];
    }
  }

  /** Lines 67-77 as written: the new line is appended when none was met, after whatever the last line is. */
  method RewriteLinesAsWritten(lines: seq<string>, token: string) returns (newLines: seq<string>)
    ensures newLines == RewrittenAsWritten(lines, token)
  {
    var found;
    newLines, found := ReplaceLines(lines, token);
    if !found {
      newLines := newLines + [AccessLine(token)];
    }
  }

  // ---------------------------------------------------------------------
  // The whole script
  // ---------------------------------------------------------------------

  /** How a run ends: no refresh token (it raises), the file kept, or the file rewritten with this text. */
  datatype RunResult = NoRefreshToken | Kept | Wrote(text: string)

  /**
   * The script as written: read the refresh token, post it, choose the
   * token (an error object's body included) and append the new line
   * after whatever the last line is.
   */
  method RunAsWritten(file: string, post: string -> Response) returns (r: RunResult)
    ensures RefreshTokenOf(ReadLines(file)).None? ==> r == NoRefreshToken
    ensures RefreshTokenOf(ReadLines(file)).Some? ==>
      var t := ChosenAsWritten(post(RefreshTokenOf(ReadLines(file)).value));
      r == if t.None? then Kept else Wrote(Flatten(RewrittenAsWritten(ReadLines(file), t.value)))
  {
    var lines := ReadLines(file);
    var refreshToken := ReadRefreshToken(lines);
    if refreshToken.None? {
      return NoRefreshToken;
    }
    var response := post(refreshToken.value);
    var token := ChosenAsWritten(response);
    if token.None? {
      return Kept;
    }
    var newLines := RewriteLinesAsWritten(lines, token.value);
    return Wrote(Flatten(newLines));
  }

  /**
   * The script with both corrections: an error object keeps the file, and
   * the new line goes on a line of its own.
   */
  method Run(file: string, post: string -> Response) returns (r: RunResult)
    ensures RefreshTokenOf(ReadLines(file)).None? ==> r == NoRefreshToken
    ensures RefreshTokenOf(ReadLines(file)).Some? ==>
      var t := Chosen(post(RefreshTokenOf(ReadLines(file)).value));
      r == if t.None? then Kept else Wrote(Flatten(Rewritten(ReadLines(file), t.value)))
  {
    var lines := ReadLines(file);
    var refreshToken := ReadRefreshToken(lines);
    if refreshToken.None? {
      return NoRefreshToken;
    }
    var response := post(refreshToken.value);
    var token := Chosen(response);
    if token.None? {
      return Kept;
    }
    var newLines := RewriteLines(lines, token.value);
    return Wrote(Flatten(newLines));
  }

  /**
   * After a rewrite with a one-line token, reading the file again gives
   * the same refresh token and access-token lines that all hold the new token.
   */
  lemma RunRoundTrip(file: string, token: string)
    requires '\n' !in token
    ensures var lines := ReadLines(Flatten(Rewritten(ReadLines(file), token)));
      RefreshTokenOf(lines) == RefreshTokenOf(ReadLines(file)) &&
      HasAccessLine(lines) && forall i :: 0 <= i < |lines| && IsAccessLine(lines[i]) ==> lines[i] == AccessLine(token)
  {
    var old_ := ReadLines(file);
    ReadLinesWellFormed(file);
    RewrittenLines(old_, token);
    RewrittenAccess(old_, token);
    RewrittenKeepsRefresh(old_, token);
    ReadLinesOfFlatten(Rewritten(old_, token));
  }
}
