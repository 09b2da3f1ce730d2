/*
 * Generic sequence helpers shared by the text and byte-string models:
 * an Option type, concatenation of a list of pieces, Python-style
 * `sep.join`, prefix/suffix tests, trimming and filtering.
 */
module Wrappers {
  datatype Option<+T> = None | Some(value: T)
}

module Seqs {

  /** Concatenation of a list of pieces, e.g. the lines of a file back into its content. */
  function Flatten<T>(pieces: seq<seq<T>>): (r: seq<T>)
  {
    if |pieces| == 0 then [] else Flatten(pieces[..|pieces| - 1]) + pieces[|pieces| - 1]
  }

  lemma {:induction false} FlattenAppend<T>(a: seq<seq<T>>, b: seq<seq<T>>)
    ensures Flatten(a + b) == Flatten(a) + Flatten(b)
  {
    if |b| == 0 {
      assert a + b == a;
    } else {
      assert (a + b)[..|a + b| - 1] == a + b[..|b| - 1];
      FlattenAppend(a, b[..|b| - 1]);
    }
  }

  lemma FlattenCons<T>(x: seq<T>, rest: seq<seq<T>>)
    ensures Flatten([x] + rest) == x + Flatten(rest)
  {
    FlattenAppend([x], rest);
    assert [x][..0] == [];
  }

  lemma AppendAssoc<T>(a: seq<T>, b: seq<T>, c: seq<T>)
    ensures a + b + c == a + (b + c)
  {
  }

  lemma FlattenSnoc<T>(pieces: seq<seq<T>>, x: seq<T>)
    ensures Flatten(pieces + [x]) == Flatten(pieces) + x
  {
    assert (pieces + [x])[..|pieces|] == pieces;
  }

  lemma {:induction false} FlattenPrefix<T>(pieces: seq<seq<T>>, k: nat)
    requires k <= |pieces|
    ensures Flatten(pieces[..k]) <= Flatten(pieces)
  {
    assert pieces == pieces[..k] + pieces[k..];
    FlattenAppend(pieces[..k], pieces[k..]);
  }

  /** Python `sep.join(parts)`. */
  function Join<T>(sep: seq<T>, parts: seq<seq<T>>): (r: seq<T>)
  {
    if |parts| == 0 then []
    else if |parts| == 1 then parts[0]
    else Join(sep, parts[..|parts| - 1]) + sep + parts[|parts| - 1]
  }

  /** An element in neither the separator nor any part is not in the joined sequence. */
  lemma {:induction false} JoinNotIn<T>(sep: seq<T>, parts: seq<seq<T>>, x: T)
    requires x !in sep && forall i :: 0 <= i < |parts| ==> x !in parts[i]
    ensures x !in Join(sep, parts)
  {
    if |parts| > 1 {
      JoinNotIn(sep, parts[..|parts| - 1], x);
    }
  }

  predicate StartsWith<T(==)>(s: seq<T>, prefix: seq<T>)
  {
    prefix <= s
  }

  predicate EndsWith<T(==)>(s: seq<T>, suffix: seq<T>)
  {
    |suffix| <= |s| && s[|s| - |suffix|..] == suffix
  }

  /** `s` with every trailing element satisfying `drop` removed (Python `rstrip`). */
  function TrimEnd<T>(s: seq<T>, drop: T -> bool): (r: seq<T>)
    ensures r <= s
    ensures |r| > 0 ==> !drop(r[|r| - 1])
    ensures forall i :: |r| <= i < |s| ==> drop(s[i])
  {
    if |s| > 0 && drop(s[|s| - 1]) then TrimEnd(s[..|s| - 1], drop) else s
  }

  /** `s` with every leading element satisfying `drop` removed (Python `lstrip`). */
  function TrimStart<T>(s: seq<T>, drop: T -> bool): (r: seq<T>)
    ensures |r| <= |s|
    ensures |r| > 0 ==> !drop(r[0])
    ensures forall i :: 0 <= i < |s| - |r| ==> drop(s[i])
  {
    if |s| > 0 && drop(s[0]) then TrimStart(s[1..], drop) else s
  }

  /** What `TrimStart` keeps is a suffix of its input. */
  lemma {:induction false} TrimStartSuffix<T>(s: seq<T>, drop: T -> bool)
    ensures TrimStart(s, drop) == s[|s| - |TrimStart(s, drop)|..]
  {
    if |s| > 0 && drop(s[0]) {
      TrimStartSuffix(s[1..], drop);
    }
  }

  /** The elements of `s` that satisfy `keep`, in their original order. */
  function Filter<T>(s: seq<T>, keep: T -> bool): (r: seq<T>)
    ensures |r| <= |s|
    ensures forall x :: x in r ==> x in s && keep(x)
    ensures forall x :: x in s && keep(x) ==> x in r
  {
    if |s| == 0 then []
    else Filter(s[..|s| - 1], keep) + (if keep(s[|s| - 1]) then [s[|s| - 1]] else [])
  }

  /** Filtering a sequence none of whose elements pass leaves nothing. */
  lemma {:induction false} FilterNone<T>(s: seq<T>, keep: T -> bool)
    requires forall i :: 0 <= i < |s| ==> !keep(s[i])
    ensures Filter(s, keep) == []
  {
    if |s| > 0 {
      FilterNone(s[..|s| - 1], keep);
    }
  }

  /** Filtering a sequence whose elements all pass keeps it whole. */
  lemma {:induction false} FilterAll<T>(s: seq<T>, keep: T -> bool)
    requires forall i :: 0 <= i < |s| ==> keep(s[i])
    ensures Filter(s, keep) == s
  {
    if |s| > 0 {
      FilterAll(s[..|s| - 1], keep);
    }
  }

  /** Filtering twice is filtering once. */
  lemma FilterIdempotent<T>(s: seq<T>, keep: T -> bool)
    ensures Filter(Filter(s, keep), keep) == Filter(s, keep)
  {
    var r := Filter(s, keep);
    forall i | 0 <= i < |r| ensures keep(r[i]) {
      assert r[i] in r;
    }
    FilterAll(r, keep);
  }

  /** Python `pieces.count(x)` for a predicate: how many elements satisfy `p`. */
  function Count<T>(s: seq<T>, p: T -> bool): (n: nat)
    ensures n <= |s|
  {
    if |s| == 0 then 0 else Count(s[..|s| - 1], p) + (if p(s[|s| - 1]) then 1 else 0)
  }
}
