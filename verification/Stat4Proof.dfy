/** The invariant of the STAT4 sampler: what half-finished samples mean, and why finishing them
    makes every counter exact. C holds the change column of each pushed row, R its rowid. */
module Stat4Proof {
  import opened Stat4Runs
  import opened Stat4Sampler
  import opened Division

  /** Position of a sample's row in the index: all rows below it. */
  function Row(s: Sample): nat
    requires |s.anLt| > 0
  {
    s.anLt[|s.anLt| - 1]
  }

  /** The sample describes an actual row, and its rows-below and distinct-below counters are exact. */
  ghost predicate Tracks(s: Sample, C: seq<nat>, R: seq<int>, nCol: nat) {
    && nCol > 0 && ShapedSample(s, nCol) && |R| == |C| && Row(s) < |C| && s.iRowid == R[Row(s)]
    && forall j {:trigger s.anLt[j]} {:trigger s.anDLt[j]} :: 0 <= j < nCol ==>
         s.anLt[j] == Start(C, Row(s), j) && s.anDLt[j] == RunsBefore(C, Row(s), j)
  }

  /** The current sample is the last row, with the length so far of each of its runs. */
  ghost predicate IsCurrent(cur: Sample, C: seq<nat>, R: seq<int>, nCol: nat) {
    && Tracks(cur, C, R, nCol) && Row(cur) == |C| - 1 && !cur.isPSample
    && forall j {:trigger cur.anEq[j]} :: 0 <= j < nCol ==> cur.anEq[j] == |C| - cur.anLt[j]
  }

  /** Equal-row counters: zero means the run of the current row, already filled means exact.
      Up to column i every counter of a run still open is zero. */
  ghost predicate Counted(s: Sample, cur: Sample, C: seq<nat>, nCol: nat, i: int)
    requires ShapedSample(s, nCol) && ShapedSample(cur, nCol) && Row(s) < |C|
  {
    forall j {:trigger s.anEq[j]} :: 0 <= j < nCol ==>
      && (s.anEq[j] == 0 ==> j < nCol - 1 && s.anLt[j] == cur.anLt[j])
      && (s.anEq[j] != 0 ==> s.anEq[j] == RunLength(C, Row(s), j))
      && (j <= i && j < nCol - 1 && s.anLt[j] == cur.anLt[j] ==> s.anEq[j] == 0)
  }

  /** The counters that decide a sample's preference are final. */
  ghost predicate Settled(s: Sample) {
    !s.isPSample ==> forall j {:trigger s.anEq[j]} :: s.iCol <= j < |s.anEq| ==> s.anEq[j] > 0
  }

  ghost predicate SampleOk(s: Sample, cur: Sample, C: seq<nat>, R: seq<int>, nCol: nat, i: int)
    requires nCol > 0 && ShapedSample(cur, nCol)
  {
    Tracks(s, C, R, nCol) && Counted(s, cur, C, nCol, i) && Settled(s)
  }

  ghost predicate SamplesOk(a: seq<Sample>, cur: Sample, C: seq<nat>, R: seq<int>, nCol: nat, i: int)
    requires nCol > 0 && ShapedSample(cur, nCol)
  {
    forall k {:trigger a[k]} :: 0 <= k < |a| ==> SampleOk(a[k], cur, C, R, nCol, i)
  }

  /** Samples are kept in index order. */
  ghost predicate InOrder(a: seq<Sample>, nCol: nat)
    requires nCol > 0 && AllShaped(a, nCol)
  {
    forall x, y :: 0 <= x < y < |a| ==> Row(a[x]) < Row(a[y])
  }

  ghost predicate ZerosBelow(a: seq<Sample>, nMaxEqZero: nat) {
    forall k, j :: 0 <= k < |a| && 0 <= j < |a[k].anEq| && a[k].anEq[j] == 0 ==> j < nMaxEqZero
  }

  /** The candidate of column t lies in the current run of that column and is the last row of
      its own run for every later column. */
  ghost predicate BestOk(b: Sample, cur: Sample, C: seq<nat>, R: seq<int>, nCol: nat, t: nat)
    requires nCol > 0 && ShapedSample(cur, nCol) && t < nCol
  {
    && Tracks(b, C, R, nCol) && b.iCol == t && !b.isPSample && b.anLt[t] == cur.anLt[t]
    && (Row(b) + 1 == |C| || C[Row(b) + 1] <= t + 1)
    && forall j {:trigger b.anEq[j]} :: t < j < nCol ==> b.anEq[j] == Row(b) + 1 - b.anLt[j]
  }

  ghost predicate BestsOk(aBest: seq<Sample>, cur: Sample, C: seq<nat>, R: seq<int>, nCol: nat)
    requires nCol > 0 && ShapedSample(cur, nCol)
  {
    && |aBest| == nCol
    && forall t {:trigger aBest[t]} :: 0 <= t < nCol - 1 ==> BestOk(aBest[t], cur, C, R, nCol, t)
  }

  /** While columns are offered from right to left: a sample that still has an open run to the
      right of i is not the one an offer for column i would upgrade. */
  ghost predicate Chain(a: seq<Sample>, nCol: nat, i: int)
    requires AllShaped(a, nCol) && i < nCol
  {
    i < 0 || (exists p :: 0 <= p < |a| && a[p].isPSample && a[p].anEq[i] == 0)
    || forall k, j :: 0 <= k < |a| && i < j < nCol && !a[k].isPSample && a[k].anEq[j] == 0 ==>
         Outdone(a, nCol, i, k)
  }

  ghost predicate Outdone(a: seq<Sample>, nCol: nat, i: nat, k: nat)
    requires AllShaped(a, nCol) && i < nCol && k < |a|
  {
    exists u :: 0 <= u < |a| && !a[u].isPSample && a[u].anEq[i] == 0 && IsBetter(a[u], a[k])
  }

  ghost predicate MidInv(p: Accum, C: seq<nat>, R: seq<int>, i: int) {
    && Ready(p) && BestMin(p) && i < p.nCol && Changes(C, p.nCol) && |R| == |C| && p.nRow == |C|
    && IsCurrent(p.current, C, R, p.nCol)
    && SamplesOk(p.a, p.current, C, R, p.nCol, i)
    && InOrder(p.a, p.nCol) && ZerosBelow(p.a, p.nMaxEqZero)
    && BestsOk(p.aBest, p.current, C, R, p.nCol)
    && Chain(p.a, p.nCol, i)
  }

  // ---------------------------------------------------------------- facts about one sample

  /** A row shares the current run of column j exactly when no boundary lies after it. */
  lemma SharesDown(s: Sample, cur: Sample, C: seq<nat>, R: seq<int>, nCol: nat, i: nat, j: nat)
    requires Tracks(s, C, R, nCol) && Tracks(cur, C, R, nCol) && i <= j < nCol && s.anLt[j] == cur.anLt[j]
    ensures s.anLt[i] == cur.anLt[i]
  {
    ShareDown(C, Row(s), Row(cur), i, j);
  }

  lemma OpenRun(s: Sample, cur: Sample, C: seq<nat>, R: seq<int>, nCol: nat, j: nat)
    requires Tracks(s, C, R, nCol) && IsCurrent(cur, C, R, nCol) && j < nCol && s.anLt[j] == cur.anLt[j]
    ensures RunLength(C, Row(s), j) == cur.anEq[j] > 0
  {
    NextAtEnd(C, Row(s), j);
  }

  /** Not sharing the current run of column j means lying below it. */
  lemma BelowRun(s: Sample, cur: Sample, C: seq<nat>, R: seq<int>, nCol: nat, j: nat)
    requires Tracks(s, C, R, nCol) && IsCurrent(cur, C, R, nCol) && j < nCol && s.anLt[j] != cur.anLt[j]
    ensures Row(s) < cur.anLt[j]
  {
    SameRun(C, Row(cur), Row(s), j);
  }

  /** The completed candidate of column i is exact from column i on. */
  lemma CandidateOk(p: Accum, C: seq<nat>, R: seq<int>, i: nat)
    requires Shaped(p) && i < p.nCol - 1 && Changes(C, p.nCol) && |R| == |C|
    requires IsCurrent(p.current, C, R, p.nCol) && BestsOk(p.aBest, p.current, C, R, p.nCol)
    ensures var s := Candidate(p, i);
      && Tracks(s, C, R, p.nCol) && s.iCol == i && !s.isPSample && s.anLt[i] == p.current.anLt[i]
      && s.anEq[i] == p.current.anEq[i]
      && (forall j :: i <= j < p.nCol ==> s.anEq[j] == RunLength(C, Row(s), j))
      && BestOk(s, p.current, C, R, p.nCol, i)
  {
    var s := Candidate(p, i);
    var b := p.aBest[i];
    OpenRun(b, p.current, C, R, p.nCol, i);
    assert forall j :: 0 <= j < p.nCol ==> s.anLt[j] == b.anLt[j] && s.anDLt[j] == b.anDLt[j];
    forall j | i < j < p.nCol
      ensures s.anEq[j] == RunLength(C, Row(s), j)
    {
      assert s.anEq[j] == b.anEq[j] && b.anLt[j] == Start(C, Row(b), j);
    }
  }

  /** A candidate of column i, or a sample upgraded to it, beats every open sample of its run. */
  lemma SharerLoses(s: Sample, u: Sample, cur: Sample, C: seq<nat>, R: seq<int>, nCol: nat, i: nat)
    requires nCol > 0 && ShapedSample(cur, nCol) && SampleOk(s, cur, C, R, nCol, i) && IsCurrent(cur, C, R, nCol)
    requires i < nCol && s.anEq[i] == 0 && !s.isPSample
    requires ShapedSample(u, nCol) && u.iCol == i && u.anEq[i] == cur.anEq[i]
    ensures s.iCol > i && IsBetter(u, s)
  {
    assert s.anLt[i] == cur.anLt[i];
    OpenRun(s, cur, C, R, nCol, i);
    assert s.iCol > i;
    RunsNest(C, Row(s), i, s.iCol);
    assert s.anEq[s.iCol] == RunLength(C, Row(s), s.iCol);
  }

  // ---------------------------------------------------------------- one offer

  /** An open counter of a column at or right of i means the counter of column i is open too. */
  lemma ZeroMovesDown(s: Sample, cur: Sample, C: seq<nat>, R: seq<int>, nCol: nat, i: nat, j: nat, t: int)
    requires nCol > 0 && ShapedSample(cur, nCol) && Tracks(cur, C, R, nCol) && SampleOk(s, cur, C, R, nCol, t)
    requires i <= j < nCol && i <= t && s.anEq[j] == 0
    ensures s.anEq[i] == 0
  {
    SharesDown(s, cur, C, R, nCol, i, j);
    assert s.anLt[i] == cur.anLt[i];
  }

  lemma LessOffered(a: seq<Sample>, cur: Sample, C: seq<nat>, R: seq<int>, nCol: nat, i: int)
    requires nCol > 0 && ShapedSample(cur, nCol) && SamplesOk(a, cur, C, R, nCol, i)
    ensures SamplesOk(a, cur, C, R, nCol, i - 1)
  {
  }

  /** The offer was refused: every sample of the run is already better than the candidate allows. */
  lemma Refused(p: Accum, C: seq<nat>, R: seq<int>, i: nat)
    requires MidInv(p, C, R, i) && i < p.nCol - 1
    requires |p.a| == p.mxSample && !IsBetter(Candidate(p, i), p.a[p.iMin])
    ensures Chain(p.a, p.nCol, i - 1)
  {
    CandidateOk(p, C, R, i);
    var c := Candidate(p, i);
    forall k, j | 0 <= k < |p.a| && i - 1 < j < p.nCol && !p.a[k].isPSample
      ensures p.a[k].anEq[j] != 0
    {
      if p.a[k].anEq[j] == 0 {
        ZeroMovesDown(p.a[k], p.current, C, R, p.nCol, i, j, i);
        SharerLoses(p.a[k], c, p.current, C, R, p.nCol, i);
        PreferenceOrder(c, p.a[p.iMin], p.a[k], p.nCol);
        assert false;
      }
    }
  }

  /** A periodic sample of the run makes the offer void, and every later one of this round. */
  lemma BlockedStays(p: Accum, C: seq<nat>, R: seq<int>, i: nat, k: nat)
    requires MidInv(p, C, R, i) && i < p.nCol - 1
    requires k < |p.a| && p.a[k].isPSample && p.a[k].anEq[i] == 0
    ensures Chain(p.a, p.nCol, i - 1)
  {
    if i > 0 {
      SharesDown(p.a[k], p.current, C, R, p.nCol, i - 1, i);
      assert p.a[k].anEq[i - 1] == 0;
    }
  }

  /** The upgraded sample: its counter for column i is filled in and none right of i is open. */
  function Raised(s: Sample, cur: Sample, i: nat): (u: Sample)
    requires |s.anEq| == |cur.anEq| && i < |s.anEq|
  {
    s.(iCol := i, anEq := s.anEq[i := cur.anEq[i]])
  }

  lemma RaisedOk(p: Accum, C: seq<nat>, R: seq<int>, i: nat, up: nat)
    requires MidInv(p, C, R, i) && i < p.nCol - 1
    requires FindSharer(p.a, p.nCol, i, |p.a|, -1) == Found(up)
    ensures up < |p.a| && SampleOk(Raised(p.a[up], p.current, i), p.current, C, R, p.nCol, i - 1)
    ensures p.a[up].anEq[i] == 0
  {
    var cur, n := p.current, p.nCol;
    FindSharerFinds(p.a, n, i, |p.a|, -1);
    var s := p.a[up];
    var u := Raised(s, cur, i);
    OpenRun(s, cur, C, R, n, i);
    assert !Outdone(p.a, n, i, up);
    assert Tracks(u, C, R, n) by {
      assert forall j :: 0 <= j < n ==> u.anLt[j] == s.anLt[j] && u.anDLt[j] == s.anDLt[j];
    }
    forall j {:trigger u.anEq[j]} | 0 <= j < n
      ensures u.anEq[j] == 0 ==> j < n - 1 && u.anLt[j] == cur.anLt[j]
      ensures u.anEq[j] != 0 ==> u.anEq[j] == RunLength(C, Row(u), j)
      ensures j <= i - 1 && j < n - 1 && u.anLt[j] == cur.anLt[j] ==> u.anEq[j] == 0
      ensures i <= j ==> u.anEq[j] > 0
    {
      if j != i {
        assert u.anEq[j] == s.anEq[j];
      }
    }
  }

  lemma ReplaceKeeps(a: seq<Sample>, up: nat, u: Sample, cur: Sample, C: seq<nat>, R: seq<int>, nCol: nat, i: int,
                     m: nat)
    requires nCol > 0 && ShapedSample(cur, nCol) && AllShaped(a, nCol) && up < |a|
    requires SamplesOk(a, cur, C, R, nCol, i) && InOrder(a, nCol) && ZerosBelow(a, m)
    requires SampleOk(u, cur, C, R, nCol, i - 1) && u.anLt == a[up].anLt
    requires forall j :: 0 <= j < nCol && u.anEq[j] == 0 ==> a[up].anEq[j] == 0
    ensures AllShaped(a[up := u], nCol) && SamplesOk(a[up := u], cur, C, R, nCol, i - 1)
    ensures InOrder(a[up := u], nCol) && ZerosBelow(a[up := u], m)
  {
    LessOffered(a, cur, C, R, nCol, i);
  }

  lemma UpgradeKeeps(p: Accum, C: seq<nat>, R: seq<int>, i: nat, up: nat)
    requires MidInv(p, C, R, i) && i < p.nCol - 1
    requires FindSharer(p.a, p.nCol, i, |p.a|, -1) == Found(up)
    ensures up < |p.a|
    ensures var b := p.a[up := Raised(p.a[up], p.current, i)];
      && AllShaped(b, p.nCol)
      && SamplesOk(b, p.current, C, R, p.nCol, i - 1) && InOrder(b, p.nCol)
      && ZerosBelow(b, p.nMaxEqZero)
  {
    RaisedOk(p, C, R, i, up);
    ReplaceKeeps(p.a, up, Raised(p.a[up], p.current, i), p.current, C, R, p.nCol, i, p.nMaxEqZero);
  }

  lemma UpgradeChain(p: Accum, C: seq<nat>, R: seq<int>, i: nat, up: nat)
    requires MidInv(p, C, R, i) && i < p.nCol - 1
    requires FindSharer(p.a, p.nCol, i, |p.a|, -1) == Found(up)
    requires up < |p.a| && AllShaped(p.a[up := Raised(p.a[up], p.current, i)], p.nCol)
    ensures Chain(p.a[up := Raised(p.a[up], p.current, i)], p.nCol, i - 1)
  {
    var n := p.nCol;
    RaisedOk(p, C, R, i, up);
    FindSharerFinds(p.a, n, i, |p.a|, -1);
    var u := Raised(p.a[up], p.current, i);
    var b := p.a[up := u];
    if i > 0 {
      ZeroMovesDown(p.a[up], p.current, C, R, n, i - 1, i, i);
      assert b[up] == u && u.anEq[i - 1] == 0 && !u.isPSample;
      forall k, j | 0 <= k < |b| && i - 1 < j < n && !b[k].isPSample && b[k].anEq[j] == 0
        ensures Outdone(b, n, i - 1, k)
      {
        UpgradedWins(p, C, R, i, up, k, j);
      }
    }
  }

  lemma UpgradedWins(p: Accum, C: seq<nat>, R: seq<int>, i: nat, up: nat, k: nat, j: nat)
    requires MidInv(p, C, R, i) && i < p.nCol - 1 && up < |p.a| && k < |p.a| && i <= j < p.nCol
    requires SampleOk(Raised(p.a[up], p.current, i), p.current, C, R, p.nCol, i - 1)
    requires !p.a[k].isPSample && (if k == up then Raised(p.a[up], p.current, i) else p.a[k]).anEq[j] == 0
    requires !p.a[up].isPSample
    ensures k != up && IsBetter(Raised(p.a[up], p.current, i), p.a[k])
  {
    if k != up {
      ZeroMovesDown(p.a[k], p.current, C, R, p.nCol, i, j, i);
      SharerLoses(p.a[k], Raised(p.a[up], p.current, i), p.current, C, R, p.nCol, i);
    }
  }

  /** The sample that a fresh offer stores. */
  lemma NewcomerOk(p: Accum, C: seq<nat>, R: seq<int>, i: nat)
    requires MidInv(p, C, R, i) && i < p.nCol - 1
    ensures SampleOk(ZeroFirst(Candidate(p, i), i), p.current, C, R, p.nCol, i - 1)
    ensures forall j :: i <= j < p.nCol ==> ZeroFirst(Candidate(p, i), i).anEq[j] > 0
    ensures p.current.anLt[i] <= Row(ZeroFirst(Candidate(p, i), i))
  {
    var c, cur, n := Candidate(p, i), p.current, p.nCol;
    var z := ZeroFirst(c, i);
    CandidateOk(p, C, R, i);
    forall j | 0 <= j < i
      ensures z.anLt[j] == cur.anLt[j]
    {
      SharesDown(c, cur, C, R, n, j, i);
    }
    assert Tracks(z, C, R, n);
    assert forall j :: i <= j < n ==> z.anEq[j] == c.anEq[j] == RunLength(C, Row(z), j);
    assert z.anLt[i] == cur.anLt[i];
  }

  /** When nobody shares the run, all retained samples lie below it, with nothing open from i on. */
  lemma AllBelow(p: Accum, C: seq<nat>, R: seq<int>, i: nat)
    requires MidInv(p, C, R, i) && i < p.nCol - 1
    requires FindSharer(p.a, p.nCol, i, |p.a|, -1) == Found(-1)
    ensures forall k :: 0 <= k < |p.a| ==> Row(p.a[k]) < p.current.anLt[i]
    ensures forall k, j :: 0 <= k < |p.a| && i <= j < p.nCol ==> p.a[k].anEq[j] != 0
  {
    FindSharerFinds(p.a, p.nCol, i, |p.a|, -1);
    forall k | 0 <= k < |p.a|
      ensures Row(p.a[k]) < p.current.anLt[i]
    {
      assert p.a[k].anEq[i] != 0;
      BelowRun(p.a[k], p.current, C, R, p.nCol, i);
    }
    forall k, j | 0 <= k < |p.a| && i <= j < p.nCol
      ensures p.a[k].anEq[j] != 0
    {
      if p.a[k].anEq[j] == 0 { ZeroMovesDown(p.a[k], p.current, C, R, p.nCol, i, j, i); }
    }
  }

  lemma DropKeeps(a: seq<Sample>, d: nat, cur: Sample, C: seq<nat>, R: seq<int>, nCol: nat, i: int, m: nat)
    requires nCol > 0 && ShapedSample(cur, nCol) && AllShaped(a, nCol) && d < |a|
    requires SamplesOk(a, cur, C, R, nCol, i) && InOrder(a, nCol) && ZerosBelow(a, m)
    ensures AllShaped(Without(a, d), nCol) && SamplesOk(Without(a, d), cur, C, R, nCol, i)
    ensures InOrder(Without(a, d), nCol) && ZerosBelow(Without(a, d), m)
  {
    var w := Without(a, d);
    forall x, y | 0 <= x < y < |w|
      ensures Row(w[x]) < Row(w[y])
    {
      assert w[x] == a[if x < d then x else x + 1] && w[y] == a[if y < d then y else y + 1];
    }
  }

  lemma ExtendKeeps(a: seq<Sample>, z: Sample, cur: Sample, C: seq<nat>, R: seq<int>, nCol: nat, i: int, m: nat, e: nat)
    requires nCol > 0 && ShapedSample(cur, nCol) && AllShaped(a, nCol)
    requires SamplesOk(a, cur, C, R, nCol, i) && InOrder(a, nCol) && ZerosBelow(a, m)
    requires SampleOk(z, cur, C, R, nCol, i) && (forall k :: 0 <= k < |a| ==> Row(a[k]) < Row(z))
    requires forall j :: e <= j < nCol ==> z.anEq[j] != 0
    ensures AllShaped(a + [z], nCol) && SamplesOk(a + [z], cur, C, R, nCol, i)
    ensures InOrder(a + [z], nCol) && ZerosBelow(a + [z], Max(m, e))
  {
  }

  lemma KeptOk(p: Accum, C: seq<nat>, R: seq<int>, i: nat)
    requires MidInv(p, C, R, i) && i < p.nCol - 1
    requires FindSharer(p.a, p.nCol, i, |p.a|, -1) == Found(-1)
    ensures SamplesOk(Kept(p), p.current, C, R, p.nCol, i - 1) && InOrder(Kept(p), p.nCol)
    ensures ZerosBelow(Kept(p), p.nMaxEqZero)
    ensures forall k :: 0 <= k < |Kept(p)| ==> Row(Kept(p)[k]) < p.current.anLt[i]
  {
    AllBelow(p, C, R, i);
    LessOffered(p.a, p.current, C, R, p.nCol, i);
    if |p.a| >= p.mxSample {
      DropKeeps(p.a, p.iMin, p.current, C, R, p.nCol, i - 1, p.nMaxEqZero);
    }
  }

  lemma AppendKeeps(p: Accum, C: seq<nat>, R: seq<int>, i: nat)
    requires MidInv(p, C, R, i) && i < p.nCol - 1
    requires FindSharer(p.a, p.nCol, i, |p.a|, -1) == Found(-1)
    ensures var b := Kept(p) + [ZeroFirst(Candidate(p, i), i)];
      && AllShaped(b, p.nCol)
      && SamplesOk(b, p.current, C, R, p.nCol, i - 1) && InOrder(b, p.nCol)
      && ZerosBelow(b, Max(p.nMaxEqZero, i))
  {
    hide BestMin, Chain, BestsOk, IsCurrent, Changes, SampleOk, FindSharer, Kept;
    NewcomerOk(p, C, R, i);
    KeptOk(p, C, R, i);
    ExtendKeeps(Kept(p), ZeroFirst(Candidate(p, i), i), p.current, C, R, p.nCol, i - 1, p.nMaxEqZero, i);
  }

  lemma AppendChain(p: Accum, C: seq<nat>, R: seq<int>, i: nat)
    requires MidInv(p, C, R, i) && i < p.nCol - 1
    requires FindSharer(p.a, p.nCol, i, |p.a|, -1) == Found(-1)
    requires AllShaped(Kept(p) + [ZeroFirst(Candidate(p, i), i)], p.nCol)
    ensures Chain(Kept(p) + [ZeroFirst(Candidate(p, i), i)], p.nCol, i - 1)
  {
    NewcomerOk(p, C, R, i);
    AllBelow(p, C, R, i);
    var b := Kept(p) + [ZeroFirst(Candidate(p, i), i)];
    forall k, j | 0 <= k < |b| && i - 1 < j < p.nCol
      ensures b[k].anEq[j] != 0
    {
      if k < |b| - 1 {
        assert b[k] == p.a[if |p.a| >= p.mxSample && k >= p.iMin then k + 1 else k];
      }
    }
  }

  lemma OfferKeeps(p: Accum, C: seq<nat>, R: seq<int>, i: nat)
    requires MidInv(p, C, R, i) && i < p.nCol - 1
    ensures var r := PushOne(p, i);
      && AllShaped(r.a, p.nCol)
      && SamplesOk(r.a, p.current, C, R, p.nCol, i - 1) && InOrder(r.a, p.nCol)
      && ZerosBelow(r.a, r.nMaxEqZero) && Chain(r.a, p.nCol, i - 1)
  {
    hide SamplesOk, InOrder, Chain, BestsOk, IsCurrent, Changes;
    var c := Candidate(p, i);
    var r := PushOne(p, i);
    if |p.a| < p.mxSample || IsBetter(c, p.a[p.iMin]) {
      var f := FindSharer(p.a, p.nCol, i, |p.a|, -1);
      assert c.iCol == i && !c.isPSample by { CandidateOk(p, C, R, i); }
      if f.Blocked? {
        FindSharerFinds(p.a, p.nCol, i, |p.a|, -1);
        var k :| 0 <= k < |p.a| && p.a[k].isPSample && p.a[k].anEq[i] == 0;
        BlockedStays(p, C, R, i, k);
        LessOffered(p.a, p.current, C, R, p.nCol, i);
      } else if f.up >= 0 {
        UpgradeKeeps(p, C, R, i, f.up);
        UpgradeChain(p, C, R, i, f.up);
        assert r.a == p.a[f.up := Raised(p.a[f.up], p.current, i)];
      } else {
        AppendKeeps(p, C, R, i);
        AppendChain(p, C, R, i);
        assert r.a == Kept(p) + [ZeroFirst(c, i)];
      }
    } else {
      LessOffered(p.a, p.current, C, R, p.nCol, i);
      Refused(p, C, R, i);
    }
  }

  /** One turn of the loop over aBest keeps the invariant, moving it one column to the left. */
  lemma PushOneKeeps(p: Accum, C: seq<nat>, R: seq<int>, i: nat)
    requires MidInv(p, C, R, i) && i < p.nCol - 1
    ensures MidInv(PushOne(p, i), C, R, i - 1)
  {
    PushOneReady(p, i);
    CandidateOk(p, C, R, i);
    OfferKeeps(p, C, R, i);
  }

  /** The asserts of sampleInsert for an offered candidate: its count is known, every non-periodic
      sharer it meets was kept for a later column and is worse, a new sample comes after the last one,
      and a full array has a least preferred sample. */
  lemma OfferAsserts(p: Accum, C: seq<nat>, R: seq<int>, i: nat)
    requires MidInv(p, C, R, i) && i < p.nCol - 1
    ensures var s, r := Candidate(p, i), PushOne(p, i);
      && s.iCol == i && s.anEq[i] > 0
      && (forall k :: 0 <= k < |p.a| && p.a[k].anEq[i] == 0 && !p.a[k].isPSample ==>
           p.a[k].iCol > i && IsBetter(s, p.a[k]))
      && (FindSharer(p.a, p.nCol, i, |p.a|, -1) == Found(-1) ==>
           forall k :: 0 <= k < |Kept(p)| ==> s.anLt[p.nCol - 1] > Kept(p)[k].anLt[p.nCol - 1])
      && (|r.a| >= p.mxSample ==> r.iMin >= 0)
  {
    hide PushOne, Insert, Chain, FindSharer, Kept;
    PushOneReady(p, i);
    CandidateOk(p, C, R, i);
    var s := Candidate(p, i);
    forall k | 0 <= k < |p.a| && p.a[k].anEq[i] == 0 && !p.a[k].isPSample
      ensures p.a[k].iCol > i && IsBetter(s, p.a[k])
    {
      SharerLoses(p.a[k], s, p.current, C, R, p.nCol, i);
    }
    if FindSharer(p.a, p.nCol, i, |p.a|, -1) == Found(-1) {
      KeptOk(p, C, R, i);
      NewcomerOk(p, C, R, i);
    }
  }

  // ---------------------------------------------------------------- the end of the runs

  lemma {:induction false} PushBestsKeeps(p: Accum, C: seq<nat>, R: seq<int>, i: int, iChng: nat)
    requires MidInv(p, C, R, i) && i < p.nCol - 1 && i + 1 >= iChng
    ensures MidInv(PushBests(p, i, iChng), C, R, iChng - 1)
    decreases i + 1
  {
    if i >= iChng {
      PushOneKeeps(p, C, R, i);
      PushOneReady(p, i);
      PushBestsKeeps(PushOne(p, i), C, R, i - 1, iChng);
    }
  }

  /** After the fill, the open counters are those of the runs the next row continues. */
  ghost predicate Closed(s: Sample, cur: Sample, C: seq<nat>, R: seq<int>, nCol: nat, iChng: nat)
    requires nCol > 0 && ShapedSample(cur, nCol)
  {
    && Tracks(s, C, R, nCol) && Settled(s)
    && forall j {:trigger s.anEq[j]} :: 0 <= j < nCol ==>
         && (s.anEq[j] == 0 <==> j < iChng && j < nCol - 1 && s.anLt[j] == cur.anLt[j])
         && (s.anEq[j] != 0 ==> s.anEq[j] == RunLength(C, Row(s), j))
  }

  ghost predicate ClosedInv(p: Accum, C: seq<nat>, R: seq<int>, iChng: nat) {
    && Ready(p) && BestMin(p) && Changes(C, p.nCol) && |R| == |C| && p.nRow == |C|
    && IsCurrent(p.current, C, R, p.nCol)
    && (forall k {:trigger p.a[k]} :: 0 <= k < |p.a| ==> Closed(p.a[k], p.current, C, R, p.nCol, iChng))
    && InOrder(p.a, p.nCol) && ZerosBelow(p.a, p.nMaxEqZero)
    && BestsOk(p.aBest, p.current, C, R, p.nCol)
  }

  lemma FilledOk(s: Sample, cur: Sample, C: seq<nat>, R: seq<int>, nCol: nat, iChng: nat)
    requires nCol > 0 && ShapedSample(cur, nCol) && iChng < nCol
    requires SampleOk(s, cur, C, R, nCol, iChng - 1) && IsCurrent(cur, C, R, nCol)
    ensures Closed(Filled(s, cur, iChng), cur, C, R, nCol, iChng)
  {
    var f := Filled(s, cur, iChng);
    assert Tracks(f, C, R, nCol);
    forall j {:trigger f.anEq[j]} | 0 <= j < nCol
      ensures f.anEq[j] == 0 <==> j < iChng && j < nCol - 1 && s.anLt[j] == cur.anLt[j]
      ensures f.anEq[j] != 0 ==> f.anEq[j] == RunLength(C, Row(s), j)
    {
      if s.anEq[j] == 0 { OpenRun(s, cur, C, R, nCol, j); }
    }
  }

  /** The counters that decide preference do not change in the fill, so neither does the order. */
  lemma FilledPreference(x: Sample, y: Sample, cur: Sample, iChng: nat, nCol: nat)
    requires ShapedSample(x, nCol) && ShapedSample(y, nCol) && |cur.anEq| == nCol
    requires Settled(x) && Settled(y) && !x.isPSample && !y.isPSample
    ensures IsBetter(Filled(x, cur, iChng), Filled(y, cur, iChng)) == IsBetter(x, y)
  {
    var fx, fy := Filled(x, cur, iChng), Filled(y, cur, iChng);
    if x.iCol == y.iCol { SameFrom(x, y, fx, fy, x.iCol + 1); }
  }

  lemma {:induction false} SameFrom(x: Sample, y: Sample, x': Sample, y': Sample, i: nat)
    requires |x.anEq| == |y.anEq| == |x'.anEq| == |y'.anEq| && x.iHash == x'.iHash && y.iHash == y'.iHash
    requires forall j :: i <= j < |x.anEq| ==> x.anEq[j] == x'.anEq[j] && y.anEq[j] == y'.anEq[j]
    ensures BetterFrom(x', y', i) == BetterFrom(x, y, i)
    decreases |x.anEq| - i
  {
    if i < |x.anEq| { SameFrom(x, y, x', y', i + 1); }
  }

  lemma FillKeepsMin(p: Accum, C: seq<nat>, R: seq<int>, iChng: nat)
    requires MidInv(p, C, R, iChng - 1) && iChng < p.nCol
    ensures BestMin(FillAll(p, iChng)) && Ready(FillAll(p, iChng))
  {
    var r := FillAll(p, iChng);
    PeriodicsSame(p.a, r.a);
    if iChng < p.nMaxEqZero && |p.a| == p.mxSample {
      forall k | 0 <= k < |p.a| && !p.a[k].isPSample
        ensures !IsBetter(r.a[p.iMin], r.a[k])
      {
        FilledPreference(p.a[p.iMin], p.a[k], p.current, iChng, p.nCol);
      }
    }
  }

  lemma FillCloses(p: Accum, C: seq<nat>, R: seq<int>, iChng: nat)
    requires MidInv(p, C, R, iChng - 1) && iChng < p.nCol
    ensures ClosedInv(FillAll(p, iChng), C, R, iChng)
  {
    var r := FillAll(p, iChng);
    FillKeepsMin(p, C, R, iChng);
    forall k {:trigger r.a[k]} | 0 <= k < |r.a|
      ensures Closed(r.a[k], p.current, C, R, p.nCol, iChng)
      ensures Row(r.a[k]) == Row(p.a[k])
    {
      FilledOk(p.a[k], p.current, C, R, p.nCol, iChng);
      if iChng >= p.nMaxEqZero {
        assert Filled(p.a[k], p.current, iChng).anEq == p.a[k].anEq;
      }
    }
  }

  /** What holds between calls: an open counter is one the current row shares. */
  ghost predicate Inv(p: Accum, C: seq<nat>, R: seq<int>) {
    MidInv(p, C, R, p.nCol - 2)
  }

  /** samplePushPrevious completes exactly the runs that end. */
  lemma PushPreviousCloses(p: Accum, C: seq<nat>, R: seq<int>, iChng: nat)
    requires Inv(p, C, R) && iChng < p.nCol
    ensures ClosedInv(PushPrevious(p, iChng), C, R, iChng)
  {
    var q := PushBests(p, p.nCol - 2, iChng);
    assert MidInv(q, C, R, iChng - 1) by { PushBestsKeeps(p, C, R, p.nCol - 2, iChng); }
    FillCloses(q, C, R, iChng);
    assert PushPrevious(p, iChng) == FillAll(q, iChng);
  }

  // ---------------------------------------------------------------- the next row arrives

  /** A candidate before it is compared with the new row; only columns below iChng carry over. */
  ghost predicate Pending(b: Sample, cur: Sample, C: seq<nat>, R: seq<int>, nCol: nat, t: nat)
    requires nCol > 0 && ShapedSample(cur, nCol) && t < nCol
  {
    && Tracks(b, C, R, nCol) && b.iCol == t && b.anLt[t] == cur.anLt[t]
    && Row(b) + 1 < |C| && (Row(b) + 2 == |C| || C[Row(b) + 1] <= t + 1)
    && forall j {:trigger b.anEq[j]} :: t < j < nCol ==> b.anEq[j] == Row(b) + 1 - b.anLt[j]
  }

  ghost predicate ArrivedInv(p: Accum, C: seq<nat>, R: seq<int>, iChng: nat) {
    && Ready(p) && BestMin(p) && Changes(C, p.nCol) && |R| == |C| && p.nRow == |C|
    && IsCurrent(p.current, C, R, p.nCol) && C[|C| - 1] == iChng
    && SamplesOk(p.a, p.current, C, R, p.nCol, p.nCol - 2)
    && InOrder(p.a, p.nCol) && ZerosBelow(p.a, p.nMaxEqZero)
    && (forall t {:trigger p.aBest[t]} :: 0 <= t < p.nCol - 1 && t < iChng ==>
         Pending(p.aBest[t], p.current, C, R, p.nCol, t))
  }

  lemma TracksGrow(s: Sample, C: seq<nat>, R: seq<int>, nCol: nat, c: nat, rowid: int)
    requires Tracks(s, C, R, nCol)
    ensures Tracks(s, C + [c], R + [rowid], nCol)
  {
    forall j | 0 <= j < nCol
      ensures s.anLt[j] == Start(C + [c], Row(s), j) && s.anDLt[j] == RunsBefore(C + [c], Row(s), j)
    {
      Grow(C, c, Row(s), j);
    }
  }

  lemma CurrentGrows(cur: Sample, C: seq<nat>, R: seq<int>, nCol: nat, c: nat, rowid: int, h: nat)
    requires IsCurrent(cur, C, R, nCol) && Changes(C, nCol) && c < nCol
    ensures IsCurrent(Advanced(cur, c).(iRowid := rowid, iHash := h), C + [c], R + [rowid], nCol)
  {
    var n := Advanced(cur, c).(iRowid := rowid, iHash := h);
    forall j | 0 <= j < nCol
      ensures n.anLt[j] == Start(C + [c], |C|, j) && n.anDLt[j] == RunsBefore(C + [c], |C|, j)
      ensures n.anEq[j] == |C| + 1 - n.anLt[j]
    {
      Grow(C, c, |C| - 1, j);
    }
  }

  lemma SampleArrives(s: Sample, cur: Sample, C: seq<nat>, R: seq<int>, nCol: nat, c: nat, rowid: int, h: nat)
    requires IsCurrent(cur, C, R, nCol) && Changes(C, nCol) && c < nCol && Closed(s, cur, C, R, nCol, c)
    ensures SampleOk(s, Advanced(cur, c).(iRowid := rowid, iHash := h), C + [c], R + [rowid], nCol, nCol - 2)
  {
    var n := Advanced(cur, c).(iRowid := rowid, iHash := h);
    TracksGrow(s, C, R, nCol, c, rowid);
    forall j {:trigger s.anEq[j]} | 0 <= j < nCol
      ensures s.anEq[j] == 0 ==> j < nCol - 1 && s.anLt[j] == n.anLt[j]
      ensures s.anEq[j] != 0 ==> s.anEq[j] == RunLength(C + [c], Row(s), j)
      ensures j <= nCol - 2 && s.anLt[j] == n.anLt[j] ==> s.anEq[j] == 0
    {
      Grow(C, c, Row(s), j);
      GrowNext(C, c, Row(s), j);
      NextAtEnd(C, Row(s), j);
    }
  }

  lemma BestArrives(b: Sample, cur: Sample, C: seq<nat>, R: seq<int>, nCol: nat, t: nat, c: nat, rowid: int, h: nat)
    requires IsCurrent(cur, C, R, nCol) && Changes(C, nCol) && t < c < nCol && BestOk(b, cur, C, R, nCol, t)
    ensures Pending(b, Advanced(cur, c).(iRowid := rowid, iHash := h), C + [c], R + [rowid], nCol, t)
  {
    TracksGrow(b, C, R, nCol, c, rowid);
  }

  lemma RowArrives(p: Accum, C: seq<nat>, R: seq<int>, c: nat, rowid: int)
    requires ClosedInv(p, C, R, c) && c < p.nCol
    ensures ArrivedInv(ArriveRow(p, c, rowid), C + [c], R + [rowid], c)
    ensures forall k :: 0 <= k < |p.a| ==> Row(p.a[k]) < |C|
  {
    var r := ArriveRow(p, c, rowid);
    var h := NextHash(p.iPrn);
    ArriveReady(p, c, rowid);
    CurrentGrows(p.current, C, R, p.nCol, c, rowid, h);
    forall k {:trigger p.a[k]} | 0 <= k < |p.a|
      ensures SampleOk(p.a[k], r.current, C + [c], R + [rowid], p.nCol, p.nCol - 2)
    {
      SampleArrives(p.a[k], p.current, C, R, p.nCol, c, rowid, h);
    }
    forall t {:trigger p.aBest[t]} | 0 <= t < p.nCol - 1 && t < c
      ensures Pending(p.aBest[t], r.current, C + [c], R + [rowid], p.nCol, t)
    {
      BestArrives(p.aBest[t], p.current, C, R, p.nCol, t, c, rowid, h);
    }
  }

  // ---------------------------------------------------------------- the periodic sample

  lemma PeriodicOk(cur: Sample, C: seq<nat>, R: seq<int>, nCol: nat)
    requires IsCurrent(cur, C, R, nCol) && Changes(C, nCol)
    ensures cur.anLt[nCol - 1] == |C| - 1
    ensures var s := cur.(isPSample := true, iCol := 0);
      SampleOk(ZeroFirst(s, nCol - 1), s.(isPSample := false), C, R, nCol, nCol - 2)
  {
    var s := cur.(isPSample := true, iCol := 0);
    var z := ZeroFirst(s, nCol - 1);
    assert Tracks(z, C, R, nCol);
    assert z.anEq[nCol - 1] == 1 == RunLength(C, Row(z), nCol - 1);
  }

  /** Only the row of a sample's counters matters to the retained samples, not its other fields. */
  lemma CurrentFields(a: seq<Sample>, cur: Sample, cur': Sample, C: seq<nat>, R: seq<int>, nCol: nat, i: int)
    requires nCol > 0 && ShapedSample(cur, nCol) && ShapedSample(cur', nCol) && cur.anLt == cur'.anLt
    requires SamplesOk(a, cur, C, R, nCol, i)
    ensures SamplesOk(a, cur', C, R, nCol, i)
  {
    forall k {:trigger a[k]} | 0 <= k < |a| ensures SampleOk(a[k], cur', C, R, nCol, i) {
      assert SampleOk(a[k], cur, C, R, nCol, i);
    }
  }

  lemma TakenSamples(p: Accum, C: seq<nat>, R: seq<int>, iChng: nat)
    requires ArrivedInv(p, C, R, iChng)
    requires forall k :: 0 <= k < |p.a| ==> Row(p.a[k]) < |C| - 1
    ensures var s := p.current.(isPSample := true, iCol := 0);
      var b := Kept(p) + [ZeroFirst(s, p.nCol - 1)];
      && AllShaped(b, p.nCol)
      && SamplesOk(b, s.(isPSample := false), C, R, p.nCol, p.nCol - 2)
      && InOrder(b, p.nCol) && ZerosBelow(b, Max(p.nMaxEqZero, p.nCol - 1))
  {
    hide Counted, Pending, Changes, BestMin, Periodics;
    var n: int := p.nCol;
    var t := n - 2;
    var s := p.current.(isPSample := true, iCol := 0);
    var cur := s.(isPSample := false);
    PeriodicOk(p.current, C, R, n);
    CurrentFields(p.a, p.current, cur, C, R, n, t);
    if |p.a| >= p.mxSample { DropKeeps(p.a, p.iMin, cur, C, R, n, t, p.nMaxEqZero); }
    forall k | 0 <= k < |Kept(p)| ensures Row(Kept(p)[k]) < |C| - 1 {
      assert Kept(p)[k] == p.a[if |p.a| >= p.mxSample && k >= p.iMin then k + 1 else k];
    }
    ExtendKeeps(Kept(p), ZeroFirst(s, n - 1), cur, C, R, n, t, p.nMaxEqZero, n - 1);
  }

  lemma TakeKeeps(p: Accum, C: seq<nat>, R: seq<int>, iChng: nat)
    requires ArrivedInv(p, C, R, iChng) && Periodics(p.a) + 1 < p.mxSample
    requires forall k :: 0 <= k < |p.a| ==> Row(p.a[k]) < |C| - 1
    ensures ArrivedInv(TakePeriodic(p), C, R, iChng)
  {
    hide *;
    StepFacts(p, C, R, iChng);
    TakeReady(p);
    TakenIs(p);
    if IsPeriodic(p.current.anLt[p.nCol - 1], p.nPSample) {
      TakenSamples(p, C, R, iChng);
      TakenRest(p, C, R, iChng, TakePeriodic(p).current);
      ArrivedAgain(p, TakePeriodic(p), C, R, iChng);
    }
  }

  /** The invariant of an arrival, when only samples, minimum, zero mark and current row have changed. */
  lemma ArrivedAgain(p: Accum, r: Accum, C: seq<nat>, R: seq<int>, iChng: nat)
    requires ArrivedInv(p, C, R, iChng) && Ready(r) && BestMin(r)
    requires r == p.(a := r.a, iMin := r.iMin, nMaxEqZero := r.nMaxEqZero, current := r.current)
    requires IsCurrent(r.current, C, R, p.nCol) && AllShaped(r.a, p.nCol)
    requires SamplesOk(r.a, r.current, C, R, p.nCol, p.nCol - 2) && InOrder(r.a, p.nCol)
    requires ZerosBelow(r.a, r.nMaxEqZero)
    requires forall t {:trigger p.aBest[t]} :: 0 <= t < p.nCol - 1 && t < iChng ==>
      Pending(p.aBest[t], r.current, C, R, p.nCol, t)
    ensures ArrivedInv(r, C, R, iChng)
  {
    hide SamplesOk, InOrder, ZerosBelow, BestMin, Pending, Changes;
  }

  /** What taking a periodic sample changes. */
  lemma TakenIs(p: Accum)
    requires Ready(p) && Periodics(p.a) + 1 < p.mxSample
    ensures Shaped(p) && p.nCol > 0 && p.nPSample > 0 && |p.current.anLt| == p.nCol
    ensures
      var s, r := p.current.(isPSample := true, iCol := 0), TakePeriodic(p);
      if IsPeriodic(p.current.anLt[p.nCol - 1], p.nPSample) then
        && r.a == Kept(p) + [ZeroFirst(s, p.nCol - 1)] && r.nMaxEqZero == Max(p.nMaxEqZero, p.nCol - 1)
        && r.current == s.(isPSample := false)
      else r == p
  {
    hide Periodics, AllShaped;
  }

  /** The asserts of sampleInsert for a periodic sample. */
  lemma PeriodicAsserts(p: Accum, C: seq<nat>, R: seq<int>, iChng: nat)
    requires ArrivedInv(p, C, R, iChng) && Periodics(p.a) + 1 < p.mxSample
    requires forall k :: 0 <= k < |p.a| ==> Row(p.a[k]) < |C| - 1
    ensures forall k :: 0 <= k < |Kept(p)| ==> p.current.anLt[p.nCol - 1] > Kept(p)[k].anLt[p.nCol - 1]
    ensures |TakePeriodic(p).a| >= p.mxSample ==> TakePeriodic(p).iMin >= 0
  {
    hide TakePeriodic, SamplesOk, BestMin, Pending, Changes, InOrder, ZerosBelow;
    TakeReady(p);
    forall k | 0 <= k < |Kept(p)| ensures Row(Kept(p)[k]) < |C| - 1 {
      assert Kept(p)[k] == p.a[if |p.a| >= p.mxSample && k >= p.iMin then k + 1 else k];
    }
  }

  lemma TakenRest(p: Accum, C: seq<nat>, R: seq<int>, iChng: nat, cur: Sample)
    requires ArrivedInv(p, C, R, iChng) && cur == p.current.(iCol := 0)
    ensures IsCurrent(cur, C, R, p.nCol)
    ensures forall t {:trigger p.aBest[t]} :: 0 <= t < p.nCol - 1 && t < iChng ==>
      Pending(p.aBest[t], cur, C, R, p.nCol, t)
  {
  }

  // ---------------------------------------------------------------- the candidates

  /** If the candidate is the previous row and the new row continues its run for column t+1,
      the new row counts one more there and takes its place. */
  lemma LaterRowWins(b: Sample, cur: Sample, C: seq<nat>, R: seq<int>, nCol: nat, t: nat)
    requires IsCurrent(cur, C, R, nCol) && Changes(C, nCol) && t < nCol - 1
    requires Pending(b, cur, C, R, nCol, t) && Row(b) + 2 == |C| && C[|C| - 1] > t + 1
    ensures IsBetterPost(cur.(iCol := t), b)
  {
    assert Start(C, |C| - 1, t + 1) == Start(C, |C| - 2, t + 1);
    assert cur.anEq[t + 1] == b.anEq[t + 1] + 1;
  }

  lemma BestUpdated(b: Sample, cur: Sample, C: seq<nat>, R: seq<int>, nCol: nat, t: nat, iChng: nat)
    requires IsCurrent(cur, C, R, nCol) && Changes(C, nCol) && t < nCol - 1 && C[|C| - 1] == iChng
    requires ShapedSample(b, nCol) && !b.isPSample && (t < iChng ==> Pending(b, cur, C, R, nCol, t))
    ensures BestOk(BestAfter(b, cur, t, iChng), cur, C, R, nCol, t)
  {
    if t + 1 < iChng && Row(b) + 2 == |C| { LaterRowWins(b, cur, C, R, nCol, t); }
    assert Tracks(cur.(iCol := t), C, R, nCol);
  }

  lemma UpdateKeeps(p: Accum, C: seq<nat>, R: seq<int>, iChng: nat)
    requires ArrivedInv(p, C, R, iChng)
    ensures Inv(UpdateBest(p, iChng), C, R)
  {
    var r := UpdateBest(p, iChng);
    UpdateReady(p, iChng);
    CurrentFields(p.a, p.current, r.current, C, R, p.nCol, p.nCol - 2);
    forall t {:trigger r.aBest[t]} | 0 <= t < p.nCol - 1
      ensures BestOk(r.aBest[t], r.current, C, R, p.nCol, t)
    {
      BestUpdated(p.aBest[t], p.current, C, R, p.nCol, t, iChng);
    }
  }

  // ---------------------------------------------------------------- whole pushes and runs

  /** One call of stat_push on a sampler that has seen at least one row. */
  lemma StatPushKeeps(p: Accum, C: seq<nat>, R: seq<int>, c: nat, rowid: int)
    requires Inv(p, C, R) && c < p.nCol && Periodics(p.a) + 1 < p.mxSample
    ensures Inv(StatPush(p, c, rowid), C + [c], R + [rowid])
    ensures Periodics(StatPush(p, c, rowid).a) == Periodics(p.a) + if IsPeriodic(|C|, p.nPSample) then 1 else 0
  {
    hide Inv, MidInv, ClosedInv, ArrivedInv, UpdateBest, Ready, Shaped;
    InvFacts(p, C, R);
    var p1 := PushPrevious(p, c);
    var p2 := ArriveRow(p1, c, rowid);
    PushPreviousCloses(p, C, R, c);
    RowArrives(p1, C, R, c, rowid);
    StepFacts(p2, C + [c], R + [rowid], c);
    TakeKeeps(p2, C + [c], R + [rowid], c);
    TakeReady(p2);
    UpdateKeeps(TakePeriodic(p2), C + [c], R + [rowid], c);
  }

  lemma InvFacts(p: Accum, C: seq<nat>, R: seq<int>)
    requires Inv(p, C, R)
    ensures Ready(p) && Shaped(p) && p.nRow == |C| == |R| > 0 && Changes(C, p.nCol) && p.nPSample > 0
  {
  }

  lemma StepFacts(p: Accum, C: seq<nat>, R: seq<int>, c: nat)
    requires ArrivedInv(p, C, R, c)
    ensures Ready(p) && BestMin(p) && Shaped(p) && |C| > 0 && p.current.anLt[p.nCol - 1] == |C| - 1
  {
  }

  /** The state stat_init builds: everything zero, candidate i watching column i. */
  ghost predicate Fresh(p: Accum, nTotal: nat) {
    && Ready(p) && p.nRow == 0 && p.a == [] && p.nMaxEqZero == 0
    && p.nPSample == nTotal / (p.mxSample / 3 + 1) + 1
    && forall j :: 0 <= j < p.nCol ==> p.current.anEq[j] == p.current.anLt[j] == p.current.anDLt[j] == 0
  }

  lemma FirstPush(p: Accum, nTotal: nat, rowid: int)
    requires Fresh(p, nTotal) && Periodics(p.a) + 1 < p.mxSample
    ensures Inv(StatPush(p, 0, rowid), [0], [rowid])
    ensures Periodics(StatPush(p, 0, rowid).a) == if IsPeriodic(0, p.nPSample) then 1 else 0
  {
    var p2 := ArriveRow(p, 0, rowid);
    ArriveReady(p, 0, rowid);
    assert IsCurrent(p2.current, [0], [rowid], p.nCol);
    assert ArrivedInv(p2, [0], [rowid], 0);
    TakeKeeps(p2, [0], [rowid], 0);
    TakeReady(p2);
    UpdateKeeps(TakePeriodic(p2), [0], [rowid], 0);
  }

  ghost predicate Told(p0: Accum, C: seq<nat>, R: seq<int>, nTotal: nat) {
    Fresh(p0, nTotal) && p0.mxSample >= 2 && Changes(C, p0.nCol) && |R| == |C| <= nTotal
  }

  /** What is known of the sampler after the pushes C. */
  ghost predicate State(p: Accum, p0: Accum, C: seq<nat>, R: seq<int>) {
    && Ready(p) && p0.nPSample > 0
    && p.nCol == p0.nCol && p.mxSample == p0.mxSample && p.nPSample == p0.nPSample
    && Periodics(p.a) == |C| / p0.nPSample <= p0.mxSample / 3
    && (if C == [] then p == p0 else Inv(p, C, R))
  }

  /** The sampler after the given pushes, nTotal being the row count it was told. */
  function Pushed(p0: Accum, C: seq<nat>, R: seq<int>, nTotal: nat): (p: Accum)
    requires Told(p0, C, R, nTotal)
    ensures State(p, p0, C, R)
  {
    hide Inv, Ready, Changes, StatPush;
    if C == [] then p0
    else
      var n := |C| - 1;
      ToldPrefix(p0, C, R, nTotal);
      var q := Pushed(p0, C[..n], R[..n], nTotal);
      PushedStep(p0, q, C[..n], R[..n], C[n], R[n], nTotal);
      assert C[..n] + [C[n]] == C && R[..n] + [R[n]] == R;
      StatPush(q, C[n], R[n])
  }

  lemma ToldPrefix(p0: Accum, C: seq<nat>, R: seq<int>, nTotal: nat)
    requires Told(p0, C, R, nTotal) && C != []
    ensures Told(p0, C[..|C| - 1], R[..|C| - 1], nTotal)
    ensures C[|C| - 1] < p0.nCol && (|C| == 1 ==> C[0] == 0)
  {
  }

  lemma PushedStep(p0: Accum, q: Accum, C: seq<nat>, R: seq<int>, c: nat, rowid: int, nTotal: nat)
    requires Told(p0, C, R, nTotal) && |C| < nTotal && c < p0.nCol && (C == [] ==> c == 0)
    requires State(q, p0, C, R)
    ensures Periodics(q.a) + 1 < q.mxSample
    ensures State(StatPush(q, c, rowid), p0, C + [c], R + [rowid])
  {
    hide Inv, Changes, StatPush, Ready;
    MultiplesFit(|C| + 1, nTotal, p0.mxSample / 3 + 1);
    DivStep(|C|, p0.nPSample);
    if C == [] {
      FirstPush(q, nTotal, rowid);
      assert C + [c] == [0] && R + [rowid] == [rowid];
    } else {
      StatPushKeeps(q, C, R, c, rowid);
    }
  }

  /** The counters of a finished sample are those of its row. */
  ghost predicate Exact(s: Sample, C: seq<nat>, R: seq<int>, nCol: nat) {
    && Tracks(s, C, R, nCol)
    && forall j :: 0 <= j < nCol ==> s.anEq[j] == RunLength(C, Row(s), j)
  }

  /** After the last push and the closing samplePushPrevious(p, 0), every retained sample is exact. */
  lemma AllExact(p0: Accum, C: seq<nat>, R: seq<int>, nTotal: nat)
    requires Told(p0, C, R, nTotal) && C != []
    ensures var p := PushPrevious(Pushed(p0, C, R, nTotal), 0);
      && |p.a| <= p0.mxSample && InOrder(p.a, p0.nCol) && BestMin(p)
      && Periodics(p.a) <= p0.mxSample / 3
      && forall k :: 0 <= k < |p.a| ==> Exact(p.a[k], C, R, p0.nCol)
  {
    PushPreviousCloses(Pushed(p0, C, R, nTotal), C, R, 0);
  }
}
