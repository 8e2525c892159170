/** The stat1 row of an analyzed index, from the sampler's counters to the numbers read back. */
module Stat1Proof {
  import opened Stat4Runs
  import opened Stat4Sampler
  import opened Stat4Proof
  import opened Stat4Rows
  import opened StatText

  /** The stat1 text of a non-empty sampler reads back as the row count followed by the
      rounded-up quotients, which are at least 1 and never increase. */
  lemma Stat1RoundTrip(p: Accum, C: seq<nat>, R: seq<int>)
    requires Inv(p, C, R) && |C| < TROWCNT_LIMIT
    ensures forall i :: 0 <= i < p.nCol ==> p.current.anDLt[i] < TROWCNT_LIMIT - 1
    ensures var v := Decode(Join([p.nRow] + Estimates(p.nRow, p.current.anDLt, p.nKeyCol)), p.nKeyCol + 1);
      && |v| == p.nKeyCol + 1 && v[0] == |C|
      && (forall i :: 0 < i <= p.nKeyCol ==> v[i] == KeyEstimate(C, i - 1) >= 1)
      && (forall i :: 1 < i <= p.nKeyCol ==> v[i] <= v[i - 1])
  {
    hide Decode, Join, RunsBefore, Estimate;
    KeyEstimates(p, C, R);
    ListFacts(p, C, R);
    DecodeJoin([p.nRow] + Estimates(p.nRow, p.current.anDLt, p.nKeyCol));
  }

  lemma ListFacts(p: Accum, C: seq<nat>, R: seq<int>)
    requires Inv(p, C, R)
    ensures var v := [p.nRow] + Estimates(p.nRow, p.current.anDLt, p.nKeyCol);
      && |v| == p.nKeyCol + 1 && v[0] == |C|
      && forall i :: 0 < i <= p.nKeyCol ==> v[i] == KeyEstimate(C, i - 1)
  {
    hide Estimate;
    KeyEstimates(p, C, R);
  }

  /** The row count, and for each number of columns the rows per distinct prefix, rounded up. */
  ghost predicate Stat1Of(v: seq<nat>, rows: seq<seq<int>>, nCol: nat, nKeyCol: nat)
    requires SortedRows(rows, nCol) && nKeyCol <= nCol
  {
    && |v| == nKeyCol + 1 && v[0] == |rows|
    && forall i {:trigger v[i]} :: 0 < i <= nKeyCol ==>
         var d := |DistinctPrefixes(rows, i)|; d > 0 && v[i] == Estimate(|rows|, d)
  }

  /** In terms of the index: what the stat1 text says is the number of rows per distinct prefix. */
  lemma Stat1OfRows(p: Accum, rows: seq<seq<int>>, R: seq<int>)
    requires p.nCol > 0 && SortedRows(rows, p.nCol) && rows != [] && |rows| < TROWCNT_LIMIT
    requires Inv(p, ChangesOf(rows, p.nCol), R)
    ensures p.nKeyCol <= p.nCol && p.nRow == |rows| && |p.current.anDLt| == p.nCol
    ensures forall i :: 0 <= i < p.nKeyCol ==> p.current.anDLt[i] < TROWCNT_LIMIT - 1
    ensures
      var v := Decode(Join([p.nRow] + Estimates(p.nRow, p.current.anDLt, p.nKeyCol)), p.nKeyCol + 1);
      Stat1Of(v, rows, p.nCol, p.nKeyCol)
  {
    StatShape(p, ChangesOf(rows, p.nCol), R);
    hide *;
    Stat1RoundTrip(p, ChangesOf(rows, p.nCol), R);
    var v := Decode(Join([p.nRow] + Estimates(p.nRow, p.current.anDLt, p.nKeyCol)), p.nKeyCol + 1);
    DistinctQuotients(v, rows, p.nCol, p.nKeyCol);
  }

  lemma StatShape(p: Accum, C: seq<nat>, R: seq<int>)
    requires Inv(p, C, R)
    ensures p.nKeyCol <= p.nCol == |p.current.anDLt| && p.nRow == |C|
  {
  }

  lemma DistinctQuotients(v: seq<nat>, rows: seq<seq<int>>, nCol: nat, nKeyCol: nat)
    requires SortedRows(rows, nCol) && rows != [] && 0 < nCol && nKeyCol <= nCol
    requires |ChangesOf(rows, nCol)| == |rows| && |v| == nKeyCol + 1 && v[0] == |rows|
    requires forall i :: 0 < i <= nKeyCol ==> v[i] == KeyEstimate(ChangesOf(rows, nCol), i - 1)
    ensures Stat1Of(v, rows, nCol, nKeyCol)
  {
    hide RunsBefore, Estimate, DistinctPrefixes, LessOn;
    forall i {:trigger v[i]} | 0 < i <= nKeyCol
      ensures var d := |DistinctPrefixes(rows, i)|; d > 0 && v[i] == Estimate(|rows|, d)
    {
      DistinctInAll(rows, nCol, i - 1);
    }
  }

  /** Rows per distinct value of the first i+1 columns, rounded up. */
  function KeyEstimate(C: seq<nat>, i: nat): nat
    requires C != []
  {
    Estimate(|C|, RunsBefore(C, |C| - 1, i) + 1)
  }

  lemma KeyEstimates(p: Accum, C: seq<nat>, R: seq<int>)
    requires Inv(p, C, R)
    ensures forall i :: 0 <= i < p.nCol ==> p.current.anDLt[i] == RunsBefore(C, |C| - 1, i) < |C|
    ensures forall i :: 0 <= i < p.nCol ==> 1 <= KeyEstimate(C, i) <= |C|
    ensures forall i :: 0 < i < p.nCol ==> KeyEstimate(C, i) <= KeyEstimate(C, i - 1)
  {
    forall i | 0 <= i < p.nCol
      ensures p.current.anDLt[i] == RunsBefore(C, |C| - 1, i) < |C|
    {
      RunsBounded(C, |C| - 1, i);
    }
    forall i | 0 <= i < p.nCol
      ensures 1 <= KeyEstimate(C, i) <= |C|
    {
      EstimateIsCeiling(|C|, RunsBefore(C, |C| - 1, i) + 1);
      EstimateSmall(|C|, RunsBefore(C, |C| - 1, i) + 1);
    }
    forall i | 0 < i < p.nCol
      ensures KeyEstimate(C, i) <= KeyEstimate(C, i - 1)
    {
      MoreRuns(C, |C| - 1, i - 1);
      EstimateAntitone(|C|, RunsBefore(C, |C| - 1, i - 1) + 1, RunsBefore(C, |C| - 1, i) + 1);
    }
  }

  lemma {:induction false} RunsBounded(C: seq<nat>, k: nat, j: nat)
    requires k < |C|
    ensures RunsBefore(C, k, j) <= k
  {
    if k > 0 { RunsBounded(C, k - 1, j); }
  }

  /** A longer prefix has at least as many distinct values. */
  lemma {:induction false} MoreRuns(C: seq<nat>, k: nat, j: nat)
    requires k < |C|
    ensures RunsBefore(C, k, j) <= RunsBefore(C, k, j + 1)
  {
    if k > 0 { MoreRuns(C, k - 1, j); }
  }
}
