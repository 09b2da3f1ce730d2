/*
 * The personal-check window of PersonalCheck.py: the thirteen one-digit
 * boxes a citizen ID (CID) is typed or pasted into, the CID they make up,
 * and the small formatters used to show the answer of the rights service.
 */
module PersonalCheck {
  import opened Wrappers
  import opened Seqs
  import opened Text

  /** The number of digit boxes of the window, and the length of a CID. */
  const CidLength: nat := 13

  // ---------------------------------------------------------------------
  // Formatters
  // ---------------------------------------------------------------------

  /**
   * `_fmt_pid`: a text with exactly 13 digits is shown as the groups of
   * 1, 4, 5, 2 and 1 digits joined by dashes; any other text as it is.
   */
  function FmtPid(pid: string): (r: string)
    ensures |Digits(pid)| != CidLength ==> r == pid
  {
    var d := Digits(pid);
    if |d| != CidLength then pid else Dashed(d)
  }

  /** The 13 digits in groups of 1, 4, 5, 2 and 1, joined by dashes. */
  function Dashed(d: string): string
    requires |d| == CidLength
  {
    [d[0]] + "-" + d[1..5] + "-" + d[5..10] + "-" + d[10..12] + "-" + [d[12]]
  }

  /** The formatted CID holds the same digits in the same order, with dashes at 1, 6, 12 and 15. */
  lemma FmtPidGroups(pid: string)
    requires |Digits(pid)| == CidLength
    ensures var r := FmtPid(pid);
            && |r| == 17 && r[1] == '-' && r[6] == '-' && r[12] == '-' && r[15] == '-'
            && Digits(r) == Digits(pid)
  {
    DashedShape(Digits(pid));
  }

  lemma DashedShape(d: string)
    requires |d| == CidLength && AllDigits(d)
    ensures var r := Dashed(d);
            && |r| == 17 && r[1] == '-' && r[6] == '-' && r[12] == '-' && r[15] == '-'
            && Digits(r) == d
  {
    DashedDigits([d[0]], d[1..5], d[5..10], d[10..12], [d[12]]);
    GroupsJoin(d);
  }

  /** The digits of five groups of digits joined by dashes are the groups run together. */
  lemma DashedDigits(p0: string, p1: string, p2: string, p3: string, p4: string)
    requires AllDigits(p0) && AllDigits(p1) && AllDigits(p2) && AllDigits(p3) && AllDigits(p4)
    ensures Digits(p0 + "-" + p1 + "-" + p2 + "-" + p3 + "-" + p4) == p0 + p1 + p2 + p3 + p4
  {
    var a1 := p0 + "-" + p1;
    var a2 := a1 + "-" + p2;
    var a3 := a2 + "-" + p3;
    DigitsOfDigits(p0);
    DigitsOfDigits(p1);
    DigitsOfDigits(p2);
    DigitsOfDigits(p3);
    DigitsOfDigits(p4);
    DigitsDash(p0, p1);
    DigitsDash(a1, p2);
    DigitsDash(a2, p3);
    DigitsDash(a3, p4);
  }

  lemma GroupsJoin(d: string)
    requires |d| == 13
    ensures [d[0]] + d[1..5] + d[5..10] + d[10..12] + [d[12]] == d
  {
  }

  /** A dash between two texts adds no digit. */
  lemma DigitsDash(a: string, b: string)
    ensures Digits(a + "-" + b) == Digits(a) + Digits(b)
  {
    DigitsAppend(a + "-", b);
    DigitsSnoc(a, '-');
  }

  /** Formatting a formatted CID changes nothing. */
  lemma FmtPidIdempotent(pid: string)
    ensures FmtPid(FmtPid(pid)) == FmtPid(pid)
  {
    if |Digits(pid)| == CidLength {
      FmtPidGroups(pid);
    }
  }

  /** `_dash`: the stripped text of a value (None counting as empty), or `-` when that is empty. */
  function Dash(value: Option<string>): (r: string)
    ensures r != ""
    ensures value.Some? && Strip(value.value) != "" ==> r == Strip(value.value)
    ensures r != "-" ==> value.Some? && r == Strip(value.value)
  {
    var t := Strip(if value.Some? then value.value else "");
    if t != "" then t else "-"
  }

  /** A dashed value is never empty and has no surrounding whitespace. */
  lemma DashStripped(value: Option<string>)
    ensures Dash(value) != "" && Strip(Dash(value)) == Dash(value)
  {
    var t := Strip(if value.Some? then value.value else "");
    if t != "" {
      StripStripped(if value.Some? then value.value else "");
    }
  }

  /** `obj.get(k1) or obj.get(k2) or ''` over a dictionary of texts (an empty text is falsy). */
  function FirstSet(obj: map<string, string>, k1: string, k2: string): (r: string)
    ensures r != "" ==> (k1 in obj && r == obj[k1]) || (k2 in obj && r == obj[k2])
  {
    if k1 in obj && obj[k1] != "" then obj[k1] else if k2 in obj && obj[k2] != "" then obj[k2] else ""
  }

  /**
   * `_fmt_code_name`: `(code) name` when both are there, otherwise the
   * name, otherwise the code; the code is taken from `id` or else
   * `hcode`, the name from `name` or else `hname`, each stripped.
   */
  function FmtCodeName(obj: Option<map<string, string>>): (r: string)
  {
    var o := if obj.Some? then obj.value else map[];
    var code := Strip(FirstSet(o, "id", "hcode"));
    var name := Strip(FirstSet(o, "name", "hname"));
    if code != "" && name != "" then "(" + code + ") " + name
    else if name != "" then name else code
  }

  /**
   * The shown text is empty exactly when both the code and the name are;
   * it is `(code) name` when both are set, ends with the name whenever
   * there is one, and is the bare code or the bare name when the other
   * is missing. `id` is preferred to `hcode` and `name` to
   * `hname` whenever it is set.
   */
  lemma FmtCodeNameParts(obj: map<string, string>)
    ensures var code, name := Strip(FirstSet(obj, "id", "hcode")), Strip(FirstSet(obj, "name", "hname"));
            var r := FmtCodeName(Some(obj));
            && (r == "" <==> code == "" && name == "")
            && (name != "" ==> EndsWith(r, name))
            && (name == "" ==> r == code)
            && (code == "" ==> r == name)
            && (code != "" && name != "" ==> r == "(" + code + ") " + name)
            && ("id" in obj && obj["id"] != "" ==> code == Strip(obj["id"]))
            && ("name" in obj && obj["name"] != "" ==> name == Strip(obj["name"]))
  {
    var code, name := Strip(FirstSet(obj, "id", "hcode")), Strip(FirstSet(obj, "name", "hname"));
    var r := FmtCodeName(Some(obj));
    if code != "" && name != "" {
      assert r == ("(" + code + ") ") + name;
    }
  }

  /** No dictionary at all shows as empty. */
  lemma FmtCodeNameNone()
    ensures FmtCodeName(None) == ""
  {
    assert Strip("") == "";
  }

  // ---------------------------------------------------------------------
  // The digit boxes
  // ---------------------------------------------------------------------

  /** The boxes after pasting `digits` from box `start`: box `start + k` gets the k-th digit while there is a box. */
  function PastedSlots(slots: seq<string>, start: nat, digits: string): (r: seq<string>)
    ensures |r| == |slots|
    ensures forall j :: 0 <= j < |slots| ==> r[j] == if start <= j < start + |digits| then [digits[j - start]] else slots[j]
  {
    seq(|slots|, j requires 0 <= j < |slots| => if start <= j < start + |digits| then [digits[j - start]] else slots[j])
  }

  /** Where the focus goes after a paste: the box after the last digit, or the last box. */
  function PasteFocus(start: nat, count: nat, n: nat): (f: nat)
    requires n > 0
    ensures f < n
    ensures start + count < n ==> f == start + count
  {
    if start + count < n then start + count else n - 1
  }

  /** `''.join(e.text().strip() for e in cid_edits)`. */
  function CidOf(slots: seq<string>): (cid: string)
  {
    if |slots| == 0 then "" else CidOf(slots[..|slots| - 1]) + Strip(slots[|slots| - 1])
  }

  /** Pasting a text with at least 13 digits into the first of 13 boxes enters its first 13 digits as the CID. */
  lemma PasteWholeCid(slots: seq<string>, text: string)
    requires |slots| == CidLength && |Digits(text)| >= CidLength
    ensures CidOf(PastedSlots(slots, 0, Digits(text))) == Digits(text)[..CidLength]
    ensures |Digits(CidOf(PastedSlots(slots, 0, Digits(text))))| == CidLength
  {
    var d := Digits(text);
    var r := PastedSlots(slots, 0, d);
    forall j | 0 <= j < |r| ensures r[j] == [d[j]] {}
    CidOfDigits(r, d[..CidLength]);
    DigitsOfDigits(d[..CidLength]);
  }

  /** Boxes each holding one digit make the CID of those digits. */
  lemma {:induction false} CidOfDigits(slots: seq<string>, d: string)
    requires |slots| == |d| && forall j :: 0 <= j < |slots| ==> slots[j] == [d[j]] && IsDigit(d[j])
    ensures CidOf(slots) == d
  {
    if |slots| > 0 {
      var n := |slots| - 1;
      CidOfDigits(slots[..n], d[..n]);
      assert Strip([d[n]]) == [d[n]];
      assert d == d[..n] + [d[n]];
    }
  }

  /** The window's boxes, the box that has the focus, and the CID last submitted. */
  class CidEntry {
    var slots: array<string>
    var focus: nat
    var cid: string

    ghost predicate Valid()
      reads this
    {
      slots.Length > 0 && focus < slots.Length
    }

    /** Thirteen empty boxes, the first one focused. */
    constructor ()
      ensures Valid() && fresh(slots) && slots.Length == CidLength
      ensures forall j :: 0 <= j < CidLength ==> slots[j] == ""
      ensures focus == 0 && cid == ""
    {
      slots := new string[CidLength](_ => "");
      focus := 0;
      cid := "";
    }

    /**
     * A paste into box `start`: the digits of the clipboard text fill the
     * boxes from `start` on, as far as there are boxes, and the focus
     * moves past them. A text without digits is not handled and changes
     * nothing.
     */
    method Paste(start: nat, text: string) returns (handled: bool)
      requires Valid() && start < slots.Length
      modifies this, slots
      ensures Valid() && slots == old(slots) && cid == old(cid)
      ensures handled == (Digits(text) != "")
      ensures slots[..] == if handled then PastedSlots(old(slots[..]), start, Digits(text)) else old(slots[..])
      ensures focus == if handled then PasteFocus(start, |Digits(text)|, slots.Length) else old(focus)
    {
      var digits := Digits(text);
      if digits == "" {
        return false;
      }
      ghost var before := slots[..];
      var i := 0;
      while i < |digits| && start + i < slots.Length
        invariant 0 <= i <= |digits| && start + i <= slots.Length
        invariant |before| == slots.Length && focus == old(focus) && slots == old(slots) && cid == old(cid)
        invariant forall j :: 0 <= j < slots.Length ==> slots[j] == if start <= j < start + i then [digits[j - start]] else before[j]
      {
        var pos := start + i;
        slots[pos] := [digits[i]];
        i := i + 1;
      }
      assert slots[..] == PastedSlots(before, start, digits);
      var nextPos := start + |digits|;
      if nextPos < slots.Length {
        focus := nextPos;
      } else {
        focus := slots.Length - 1;
      }
      return true;
    }

    /**
     * Backspace in box `idx`: when the box is empty and is not the first,
     * the box before it is cleared and focused; otherwise nothing of the
     * model changes (the key goes on to the box itself).
     */
    method Backspace(idx: nat) returns (handled: bool)
      requires Valid() && idx < slots.Length
      modifies this, slots
      ensures Valid() && slots == old(slots) && cid == old(cid)
      ensures handled == (old(slots[idx]) == "" && idx > 0)
      ensures slots[..] == if handled then old(slots[..])[idx - 1 := ""] else old(slots[..])
      ensures focus == if handled then idx - 1 else old(focus)
    {
      if slots[idx] == "" && idx > 0 {
        focus := idx - 1;
        slots[idx - 1] := "";
        return true;
      }
      return false;
    }

    /** `_on_digit_changed`: a box now holding one character passes the focus on, unless it is the last. */
    method DigitChanged(idx: int)
      requires Valid()
      modifies this
      ensures Valid() && slots == old(slots) && cid == old(cid)
      ensures focus == if 0 <= idx < slots.Length && |slots[idx]| == 1 && idx + 1 < slots.Length then idx + 1 else old(focus)
    {
      if idx < 0 || idx >= slots.Length {
        return;
      }
      if |slots[idx]| == 1 && idx + 1 < slots.Length {
        focus := idx + 1;
      }
    }

    /** `_on_submit_cid`: the CID is the boxes' stripped texts, joined. */
    method SubmitCid()
      requires Valid()
      modifies this
      ensures Valid() && slots == old(slots) && focus == old(focus)
      ensures cid == CidOf(slots[..])
    {
      var c := "";
      var i := 0;
      while i < slots.Length
        invariant 0 <= i <= slots.Length
        invariant c == CidOf(slots[..i])
      {
        assert slots[..i + 1][..i] == slots[..i];
        c := c + Strip(slots[i]);
        i := i + 1;
      }
      assert slots[..i] == slots[..];
      cid := c;
    }
  }
}
