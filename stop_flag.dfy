/*
 * A stop flag set by the user interface and polled by a worker thread.
 * Once set it stays set, so every interleaving of the two threads is
 * described by the number of the first poll that sees it: `stopFrom`
 * (None when it is never seen).
 */
module StopFlag {
  import opened Wrappers

  /** The value the flag has at poll number `k`. */
  predicate StopAt(stopFrom: Option<nat>, k: nat)
  {
    stopFrom.Some? && stopFrom.value <= k
  }

  /** The first of `n` polls, numbered from `from`, that sees the flag set. */
  function StopWithin(stopFrom: Option<nat>, from: nat, n: nat): (r: Option<nat>)
    ensures r.Some? ==> r.value < n && StopAt(stopFrom, from + r.value)
                        && (r.value == 0 || !StopAt(stopFrom, from + r.value - 1))
    ensures r.None? ==> n == 0 || !StopAt(stopFrom, from + n - 1)
  {
    if stopFrom.None? then None
    else if stopFrom.value <= from then (if n > 0 then Some(0) else None)
    else if stopFrom.value - from < n then Some(stopFrom.value - from)
    else None
  }

  /** One more poll: the first stop seen among `n + 1` polls. */
  lemma StopWithinNext(stopFrom: Option<nat>, from: nat, n: nat)
    ensures StopWithin(stopFrom, from, n + 1)
            == if StopWithin(stopFrom, from, n).Some? then StopWithin(stopFrom, from, n)
               else if StopAt(stopFrom, from + n) then Some(n) else None
  {
  }
}
