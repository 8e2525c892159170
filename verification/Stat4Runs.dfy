/** Runs of equal prefixes in a sorted index, described only by the change column of each row:
    C[k] is the left-most column in which row k differs from row k-1. */
module Stat4Runs {

  /** Every pair of neighbouring rows differs in some column below nCol. */
  ghost predicate Changes(C: seq<nat>, nCol: nat) {
    && (|C| > 0 ==> C[0] == 0)
    && forall k :: 0 <= k < |C| ==> C[k] < nCol
  }

  /** First row of the run of rows that share columns 0..j with row k. */
  function Start(C: seq<nat>, k: nat, j: nat): (m: nat)
    requires k < |C|
    ensures m <= k
  {
    if k == 0 || C[k] <= j then k else Start(C, k - 1, j)
  }

  /** First row after row k that is outside that run. */
  function Next(C: seq<nat>, k: nat, j: nat): (m: nat)
    requires k < |C|
    decreases |C| - k
    ensures k < m <= |C|
  {
    if k + 1 == |C| || C[k + 1] <= j then k + 1 else Next(C, k + 1, j)
  }

  /** Number of rows in the run. */
  function RunLength(C: seq<nat>, k: nat, j: nat): (m: nat)
    requires k < |C|
    ensures m > 0
  {
    Next(C, k, j) - Start(C, k, j)
  }

  /** Number of runs, for columns 0..j, that end before the run of row k. */
  function RunsBefore(C: seq<nat>, k: nat, j: nat): nat
    requires k < |C|
  {
    if k == 0 then 0 else RunsBefore(C, k - 1, j) + if C[k] <= j then 1 else 0
  }

  /** Rows between the start of a run and one of its rows are in the same run. */
  lemma {:induction false} SameRun(C: seq<nat>, k: nat, m: nat, j: nat)
    requires m <= k < |C|
    ensures Start(C, k, j) <= m <==> Start(C, m, j) == Start(C, k, j)
    ensures Start(C, k, j) <= m ==> RunsBefore(C, m, j) == RunsBefore(C, k, j) && Next(C, m, j) == Next(C, k, j)
    decreases k
  {
    if m < k && C[k] > j {
      SameRun(C, k - 1, m, j);
      NextStep(C, k, j);
    }
  }

  lemma NextStep(C: seq<nat>, k: nat, j: nat)
    requires 0 < k < |C| && C[k] > j
    ensures Next(C, k - 1, j) == Next(C, k, j)
  {
  }

  /** A run of a longer prefix lies inside the run of a shorter one. */
  lemma {:induction false} RunsNest(C: seq<nat>, k: nat, i: nat, j: nat)
    requires k < |C| && i <= j
    ensures Start(C, k, i) <= Start(C, k, j) && Next(C, k, j) <= Next(C, k, i)
    ensures Start(C, Start(C, k, j), i) == Start(C, k, i)
    ensures RunLength(C, k, j) <= RunLength(C, k, i)
  {
    StartsNest(C, k, i, j);
    NextsNest(C, k, i, j);
    SameRun(C, k, Start(C, k, j), i);
  }

  lemma {:induction false} StartsNest(C: seq<nat>, k: nat, i: nat, j: nat)
    requires k < |C| && i <= j
    ensures Start(C, k, i) <= Start(C, k, j)
  {
    if k > 0 && C[k] > j { StartsNest(C, k - 1, i, j); }
  }

  lemma {:induction false} NextsNest(C: seq<nat>, k: nat, i: nat, j: nat)
    requires k < |C| && i <= j
    ensures Next(C, k, j) <= Next(C, k, i)
    decreases |C| - k
  {
    if k + 1 < |C| && C[k + 1] > i && C[k + 1] > j { NextsNest(C, k + 1, i, j); }
  }

  /** Two rows that share a prefix share every shorter one. */
  lemma ShareDown(C: seq<nat>, k: nat, m: nat, i: nat, j: nat)
    requires k < |C| && m < |C| && i <= j && Start(C, k, j) == Start(C, m, j)
    ensures Start(C, k, i) == Start(C, m, i)
  {
    RunsNest(C, k, i, j);
    RunsNest(C, m, i, j);
  }

  /** The run of the last row reaches the end. */
  lemma {:induction false} NextAtEnd(C: seq<nat>, k: nat, j: nat)
    requires k < |C|
    ensures Next(C, k, j) == |C| <==> Start(C, k, j) == Start(C, |C| - 1, j)
    decreases |C| - k
  {
    SameRun(C, |C| - 1, k, j);
    if k + 1 < |C| {
      NextAtEnd(C, k + 1, j);
      SameRun(C, |C| - 1, k + 1, j);
      StartAbove(C, k + 1, |C| - 1, j);
    }
  }

  lemma {:induction false} StartAbove(C: seq<nat>, m: nat, k: nat, j: nat)
    requires m <= k < |C|
    ensures m > 0 && C[m] <= j ==> Start(C, k, j) >= m
    decreases k
  {
    if m < k { StartAbove(C, m, k - 1, j); }
  }

  /** One more row leaves the earlier starts alone and closes the runs it does not continue. */
  lemma {:induction false} Grow(C: seq<nat>, c: nat, k: nat, j: nat)
    requires k < |C|
    ensures Start(C + [c], k, j) == Start(C, k, j)
    ensures RunsBefore(C + [c], k, j) == RunsBefore(C, k, j)
  {
    if k > 0 { Grow(C, c, k - 1, j); }
  }

  lemma {:induction false} GrowNext(C: seq<nat>, c: nat, k: nat, j: nat)
    requires k < |C|
    ensures Next(C + [c], k, j) == if Next(C, k, j) < |C| || c <= j then Next(C, k, j) else |C| + 1
    decreases |C| - k
  {
    if k + 1 < |C| && C[k + 1] > j { GrowNext(C, c, k + 1, j); }
  }
}
