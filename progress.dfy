/*
 * The progress values the workers emit: `int(done * 100 / total)` with a
 * positive `total`.
 */
module Progress {

  /** `int(done * 100 / total)` for non-negative counts. */
  function Percent(done: nat, total: nat): (p: nat)
    requires total > 0
    ensures done <= total ==> p <= 100
    ensures done == total ==> p == 100
  {
    PercentBounds(done, total);
    done * 100 / total
  }

  lemma PercentBounds(done: nat, total: nat)
    requires total > 0
    ensures done <= total ==> done * 100 / total <= 100
    ensures done == total ==> done * 100 / total == 100
  {
    if done <= total {
      DivCancel(100, total);
      DivMonotone(done * 100, total * 100, total);
    }
  }

  lemma DivCancel(k: nat, d: nat)
    requires d > 0
    ensures (k * d) / d == k
  {
    var q, r := (k * d) / d, (k * d) % d;
    assert q * d + r == k * d && 0 <= r < d;
    if q < k {
      MulMonotone(q + 1, k, d);
      assert false;
    } else if q > k {
      MulMonotone(k + 1, q, d);
      assert false;
    }
  }

  /** More work done never shows less progress. */
  lemma PercentMonotone(d1: nat, d2: nat, total: nat)
    requires total > 0 && d1 <= d2
    ensures Percent(d1, total) <= Percent(d2, total)
  {
    DivMonotone(d1 * 100, d2 * 100, total);
  }

  /** Full progress is shown only once all the work is done. */
  lemma PercentBelowFull(done: nat, total: nat)
    requires total > 0 && done < total
    ensures Percent(done, total) < 100
  {
    MulMonotone(done + 1, total, 100);
    assert done * 100 < total * 100;
  }

  lemma MulMonotone(a: nat, b: nat, d: nat)
    requires a <= b
    ensures a * d <= b * d
  {
  }

  lemma DivMonotone(a: nat, b: nat, d: nat)
    requires a <= b && d > 0
    ensures a / d <= b / d
  {
    assert (a / d) * d <= a <= b;
    assert b < (b / d + 1) * d;
  }
}
