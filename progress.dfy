/**
  Progress accounting of the copy (electron/migrateFolder.js): the per-file
  delta bookkeeping of `processFile` and the `updateProgress` accumulator of
  `copyWithProgress`, which turns the running byte count into the
  percentage sent to the window.
*/
module Progress {

  /** A value sent on `migration-progress`: a number, or what JavaScript makes of `0 / 0` and `x / 0`. */
  datatype Progress = Percent(value: int) | NotANumber | NegativeInfinity

  function Sum(s: seq<int>): int {
    if s == [] then 0 else Sum(s[..|s| - 1]) + s[|s| - 1]
  }

  predicate Nondecreasing(s: seq<int>) {
    forall i, j :: 0 <= i < j < |s| ==> s[i] <= s[j]
  }

  function Last(s: seq<nat>): nat {
    if s == [] then 0 else s[|s| - 1]
  }

  /** `Math.round(c / t * 100)` for `t > 0`, computed exactly: the nearest integer, halves rounded up. */
  function RoundedPercent(c: int, t: nat): int
    requires t > 0
  {
    (200 * c + t) / (2 * t)
  }

  /** The rounded value is the integer nearest to `100 * c / t` (halves go up, as `Math.round` does). */
  lemma RoundedPercentIsNearest(c: int, t: nat)
    requires t > 0
    ensures var v := RoundedPercent(c, t); 2 * t * v - t <= 200 * c < 2 * t * v + t
  {
    var v := RoundedPercent(c, t);
    var m := 200 * c + t;
    assert m == 2 * t * v + m % (2 * t);
  }

  lemma RoundedPercentMonotone(c1: int, c2: int, t: nat)
    requires t > 0 && c1 <= c2
    ensures RoundedPercent(c1, t) <= RoundedPercent(c2, t)
  {
    DivMonotone(200 * c1 + t, 200 * c2 + t, 2 * t);
  }

  lemma DivMonotone(a: int, b: int, d: int)
    requires d > 0 && a <= b
    ensures a / d <= b / d
  {
    var q1, q2 := a / d, b / d;
    assert d * q1 <= a;
    assert b < d * q2 + d;
    assert d * (q1 - q2 - 1) < 0;
    MulSign(d, q1 - q2 - 1);
  }

  lemma MulSign(k: int, x: int)
    requires k > 0
    ensures x >= 0 ==> k * x >= 0
  {
  }

  /**
    `Math.min(99, Math.round((copiedBytes / totalBytes) * 100))`, including
    what the source sends when `totalBytes` is 0.
  */
  function Reported(copied: int, total: nat): (p: Progress)
    ensures p.Percent? ==> p.value <= 99
    ensures p.NotANumber? <==> total == 0 && copied == 0
  {
    if total == 0 then
      if copied == 0 then NotANumber else if copied > 0 then Percent(99) else NegativeInfinity
    else Percent(if RoundedPercent(copied, total) < 99 then RoundedPercent(copied, total) else 99)
  }

  /** While copying, a positive total yields a percentage between 0 and 99 once bytes have been counted. */
  lemma ReportedBounds(copied: int, total: nat)
    requires total > 0 && 0 <= copied
    ensures Reported(copied, total).Percent? && 0 <= Reported(copied, total).value <= 99
  {
  }

  /** More bytes copied never lowers the percentage. */
  lemma ReportedMonotone(c1: int, c2: int, total: nat)
    requires total > 0 && c1 <= c2
    ensures Reported(c1, total).value <= Reported(c2, total).value
  {
    RoundedPercentMonotone(c1, c2, total);
  }

  /** Copying the whole total is reported as 99, never as 100. */
  lemma ReportedCapsAt99(total: nat)
    requires total > 0
    ensures Reported(total, total) == Percent(99)
  {
    assert RoundedPercent(total, total) == 100 by {
      assert 200 * total + total == 2 * total * 100 + total;
    }
  }

  lemma {:induction false} SumAppend(s: seq<int>, x: int)
    ensures Sum(s + [x]) == Sum(s) + x
  {
    assert (s + [x])[..|s|] == s;
  }

  /** The previous report, which `lastSent` holds when report `k` arrives. */
  function Previous(reports: seq<nat>, k: nat): nat
    requires k <= |reports|
  {
    if k == 0 then 0 else reports[k - 1]
  }

  lemma {:induction false} SumConcat(a: seq<int>, b: seq<int>)
    ensures Sum(a + b) == Sum(a) + Sum(b)
    decreases |b|
  {
    if b == [] {
      assert a + b == a;
    } else {
      var b' := b[..|b| - 1];
      assert (a + b)[..|a + b| - 1] == a + b';
      SumConcat(a, b');
    }
  }

  predicate NonNegative(s: seq<int>) {
    forall k :: 0 <= k < |s| ==> s[k] >= 0
  }

  lemma NonNegativeConcat(a: seq<int>, b: seq<int>)
    requires NonNegative(a) && NonNegative(b)
    ensures NonNegative(a + b)
  {
    forall k | 0 <= k < |a + b| ensures (a + b)[k] >= 0 {
      if k >= |a| { assert (a + b)[k] == b[k - |a|]; }
    }
  }

  /**
    The `progress` listener of `processFile`: each reported `transferred`
    value is sent on as its difference to the previous one (`lastSent`).
  */
  method StreamDeltas(reports: seq<nat>) returns (deltas: seq<int>)
    ensures IsDeltaStream(reports, deltas)
  {
    var lastSent: int := 0;
    deltas := [];
    var i := 0;
    while i < |reports|
      invariant 0 <= i <= |reports| && |deltas| == i
      invariant lastSent == Previous(reports, i)
      invariant forall k :: 0 <= k < i ==> deltas[k] == reports[k] - Previous(reports, k)
    {
      var delta := reports[i] - lastSent;
      deltas := deltas + [delta];
      lastSent := reports[i];
      i := i + 1;
    }
  }

  /** `deltas` holds, report by report, the change since the previous report. */
  predicate IsDeltaStream(reports: seq<nat>, deltas: seq<int>) {
    |deltas| == |reports| &&
    forall k :: 0 <= k < |deltas| ==> deltas[k] == reports[k] - Previous(reports, k)
  }

  /** The deltas telescope: after `k + 1` of them the sum is the `k`-th report. */
  lemma {:induction false} DeltasTelescope(reports: seq<nat>, deltas: seq<int>, k: nat)
    requires IsDeltaStream(reports, deltas)
    requires k < |deltas|
    ensures Sum(deltas[..k + 1]) == reports[k]
  {
    assert deltas[..k + 1][..k] == deltas[..k];
    if k > 0 {
      DeltasTelescope(reports, deltas, k - 1);
    } else {
      assert deltas[..0] == [];
    }
  }

  /** So all deltas of a file sum to its last report, and a non-decreasing stream yields no negative delta. */
  lemma DeltaStreamTotals(reports: seq<nat>, deltas: seq<int>)
    requires IsDeltaStream(reports, deltas)
    ensures Sum(deltas) == Last(reports)
    ensures Nondecreasing(reports) ==> forall k :: 0 <= k < |deltas| ==> deltas[k] >= 0
  {
    if deltas != [] {
      DeltasTelescope(reports, deltas, |deltas| - 1);
      assert deltas[..|deltas|] == deltas;
    }
  }

  /** The running totals of a delta stream. */
  function RunningTotals(deltas: seq<int>): (totals: seq<int>)
    ensures |totals| == |deltas|
    ensures forall k :: 0 <= k < |deltas| ==> totals[k] == Sum(deltas[..k + 1])
  {
    seq(|deltas|, k requires 0 <= k < |deltas| => Sum(deltas[..k + 1]))
  }

  /**
    `updateProgress` in `copyWithProgress`: add each delta to `copiedBytes`
    and send the percentage of the new count.
  */
  method ForwardProgress(deltas: seq<int>, total: nat) returns (events: seq<Progress>, copied: int)
    ensures |events| == |deltas|
    ensures copied == Sum(deltas)
    ensures forall k :: 0 <= k < |events| ==> events[k] == Reported(Sum(deltas[..k + 1]), total)
  {
    copied := 0;
    events := [];
    var i := 0;
    while i < |deltas|
      invariant 0 <= i <= |deltas| && |events| == i
      invariant copied == Sum(deltas[..i])
      invariant forall k :: 0 <= k < i ==> events[k] == Reported(Sum(deltas[..k + 1]), total)
    {
      assert deltas[..i + 1] == deltas[..i] + [deltas[i]];
      SumAppend(deltas[..i], deltas[i]);
      copied := copied + deltas[i];
      events := events + [Reported(copied, total)];
      i := i + 1;
    }
    assert deltas[..i] == deltas;
  }

  /** Non-negative deltas give non-decreasing running totals. */
  lemma {:induction false} RunningTotalsGrow(deltas: seq<int>, i: nat, j: nat)
    requires forall k :: 0 <= k < |deltas| ==> deltas[k] >= 0
    requires i <= j <= |deltas|
    ensures Sum(deltas[..i]) <= Sum(deltas[..j])
    decreases j - i
  {
    if i < j {
      RunningTotalsGrow(deltas, i, j - 1);
      assert deltas[..j] == deltas[..j - 1] + [deltas[j - 1]];
      SumAppend(deltas[..j - 1], deltas[j - 1]);
    }
  }

  /**
    Every percentage sent while copying is at most 99, and with non-negative
    deltas the percentages never go down.
  */
  lemma ForwardedProgressIsMonotone(deltas: seq<int>, total: nat, events: seq<Progress>)
    requires total > 0
    requires |events| == |deltas|
    requires forall k :: 0 <= k < |events| ==> events[k] == Reported(Sum(deltas[..k + 1]), total)
    requires forall k :: 0 <= k < |deltas| ==> deltas[k] >= 0
    ensures forall k :: 0 <= k < |events| ==> events[k].Percent? && 0 <= events[k].value <= 99
    ensures forall i, j :: 0 <= i < j < |events| ==> events[i].value <= events[j].value
  {
    forall k | 0 <= k < |events| ensures events[k].Percent? && 0 <= events[k].value <= 99 {
      RunningTotalsGrow(deltas, 0, k + 1);
      assert deltas[..0] == [];
    }
    forall i, j | 0 <= i < j < |events| ensures events[i].value <= events[j].value {
      RunningTotalsGrow(deltas, i + 1, j + 1);
      ReportedMonotone(Sum(deltas[..i + 1]), Sum(deltas[..j + 1]), total);
    }
  }
}
