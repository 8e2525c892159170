/** What the bounded sampler cannot miss: every value that is more frequent than the least preferred
    retained sample is represented. */
module Stat4Coverage {
  import opened Stat4Runs
  import opened Stat4Sampler
  import opened Stat4Proof
  import opened Stat4Rows

  /** The count that decides about a sample: that of the run it is kept for. */
  function Weight(s: Sample): nat
    requires s.iCol < |s.anEq|
  {
    s.anEq[s.iCol]
  }

  /** A sample stands for the run of column j that begins at row st. */
  predicate Stands(s: Sample, j: nat, st: nat) {
    j < |s.anLt| && s.anLt[j] == st && (s.isPSample || s.iCol <= j)
  }

  ghost predicate Represented(a: seq<Sample>, j: nat, st: nat) {
    exists x :: 0 <= x < |a| && Stands(a[x], j, st)
  }

  /** The array is full of samples kept for runs at least as long. */
  ghost predicate Outweighed(a: seq<Sample>, nCol: nat, mx: nat, len: nat)
    requires AllShaped(a, nCol)
  {
    |a| == mx && forall x {:trigger a[x]} :: 0 <= x < |a| && !a[x].isPSample ==> Weight(a[x]) >= len
  }

  ghost predicate Covered(a: seq<Sample>, nCol: nat, mx: nat, j: nat, st: nat, len: nat)
    requires AllShaped(a, nCol)
  {
    Represented(a, j, st) || Outweighed(a, nCol, mx, len)
  }

  // ---------------------------------------------------------------- changes of the array

  lemma DropCovers(a: seq<Sample>, nCol: nat, mx: nat, d: nat, z: Sample, j: nat, st: nat, len: nat)
    requires AllShaped(a, nCol) && |a| == mx && d < |a| && !a[d].isPSample && ShapedSample(z, nCol)
    requires forall x {:trigger a[x]} :: 0 <= x < |a| && !a[x].isPSample ==> Weight(a[x]) >= Weight(a[d])
    requires Stands(a[d], j, st) ==> Weight(a[d]) >= len
    requires z.isPSample || Weight(z) >= Weight(a[d])
    requires Covered(a, nCol, mx, j, st, len)
    ensures AllShaped(Without(a, d) + [z], nCol) && Covered(Without(a, d) + [z], nCol, mx, j, st, len)
  {
    var b := Without(a, d) + [z];
    if Outweighed(a, nCol, mx, len) || Stands(a[d], j, st) {
      assert Weight(a[d]) >= len by { assert a[d] == a[d]; }
      assert Outweighed(b, nCol, mx, len);
    } else {
      var x :| 0 <= x < |a| && Stands(a[x], j, st);
      assert b[if x < d then x else x - 1] == a[x];
    }
  }

  lemma AddCovers(a: seq<Sample>, nCol: nat, mx: nat, z: Sample, j: nat, st: nat, len: nat)
    requires AllShaped(a, nCol) && |a| < mx && ShapedSample(z, nCol) && Covered(a, nCol, mx, j, st, len)
    ensures AllShaped(a + [z], nCol) && Covered(a + [z], nCol, mx, j, st, len)
  {
    var x :| 0 <= x < |a| && Stands(a[x], j, st);
    assert (a + [z])[x] == a[x];
  }

  lemma RaiseCovers(a: seq<Sample>, nCol: nat, mx: nat, up: nat, u: Sample, j: nat, st: nat, len: nat)
    requires AllShaped(a, nCol) && up < |a| && ShapedSample(u, nCol) && !a[up].isPSample && !u.isPSample
    requires u.anLt == a[up].anLt && u.iCol <= a[up].iCol && Weight(u) >= Weight(a[up])
    requires Covered(a, nCol, mx, j, st, len)
    ensures AllShaped(a[up := u], nCol) && Covered(a[up := u], nCol, mx, j, st, len)
  {
    var b := a[up := u];
    if Represented(a, j, st) {
      var x :| 0 <= x < |a| && Stands(a[x], j, st);
      assert Stands(b[x], j, st);
    }
  }

  // ---------------------------------------------------------------- weights

  lemma MinWeight(p: Accum)
    requires Ready(p) && BestMin(p) && |p.a| == p.mxSample
    ensures forall x {:trigger p.a[x]} :: 0 <= x < |p.a| && !p.a[x].isPSample ==> Weight(p.a[x]) >= Weight(p.a[p.iMin])
  {
  }

  lemma SameLength(C: seq<nat>, k: nat, m: nat, j: nat)
    requires k < |C| && m < |C| && Start(C, k, j) == Start(C, m, j)
    ensures RunLength(C, k, j) == RunLength(C, m, j)
  {
    if m <= k {
      SameRun(C, k, m, j);
    } else {
      SameRun(C, m, k, j);
    }
  }

  /** A sample that stands for a run is kept for a run at least as long. */
  lemma StandsForLess(s: Sample, cur: Sample, C: seq<nat>, R: seq<int>, nCol: nat, i: int, k: nat, j: nat)
    requires nCol > 0 && ShapedSample(cur, nCol) && SampleOk(s, cur, C, R, nCol, i) && !s.isPSample
    requires k < |C| && j < nCol && Stands(s, j, Start(C, k, j))
    ensures Weight(s) >= RunLength(C, k, j)
  {
    SameLength(C, k, Row(s), j);
    RunsNest(C, Row(s), s.iCol, j);
    assert s.anEq[s.iCol] == RunLength(C, Row(s), s.iCol);
  }

  // ---------------------------------------------------------------- one offer

  /** An offer takes coverage from no run. */
  lemma OfferKeepsCover(p: Accum, C: seq<nat>, R: seq<int>, i: nat, k: nat, j: nat)
    requires MidInv(p, C, R, i) && i < p.nCol - 1 && k < |C| && j < p.nCol
    requires Covered(p.a, p.nCol, p.mxSample, j, Start(C, k, j), RunLength(C, k, j))
    ensures Covered(PushOne(p, i).a, p.nCol, p.mxSample, j, Start(C, k, j), RunLength(C, k, j))
  {
    var c, n, mx := Candidate(p, i), p.nCol, p.mxSample;
    var st, len := Start(C, k, j), RunLength(C, k, j);
    CandidateOk(p, C, R, i);
    hide Covered, Start, RunLength;
    if |p.a| < mx || IsBetter(c, p.a[p.iMin]) {
      var f := FindSharer(p.a, n, i, |p.a|, -1);
      if f.Found? {
        if f.up >= 0 {
          UpgradeKeepsCover(p, C, R, i, f.up, j, st, len);
        } else {
          AppendKeepsCover(p, C, R, i, k, j);
        }
      }
    }
  }

  lemma UpgradeKeepsCover(p: Accum, C: seq<nat>, R: seq<int>, i: nat, up: nat, j: nat, st: nat, len: nat)
    requires MidInv(p, C, R, i) && i < p.nCol - 1 && j < p.nCol
    requires FindSharer(p.a, p.nCol, i, |p.a|, -1) == Found(up)
    requires Covered(p.a, p.nCol, p.mxSample, j, st, len)
    ensures up < |p.a| && !p.a[up].isPSample && p.a[up].anEq[i] == 0
    ensures AllShaped(p.a[up := Raised(p.a[up], p.current, i)], p.nCol)
    ensures Covered(p.a[up := Raised(p.a[up], p.current, i)], p.nCol, p.mxSample, j, st, len)
  {
    RaisedOk(p, C, R, i, up);
    FindSharerFinds(p.a, p.nCol, i, |p.a|, -1);
    var u := Raised(p.a[up], p.current, i);
    SharerLoses(p.a[up], u, p.current, C, R, p.nCol, i);
    RaiseCovers(p.a, p.nCol, p.mxSample, up, u, j, st, len);
  }

  lemma AppendKeepsCover(p: Accum, C: seq<nat>, R: seq<int>, i: nat, k: nat, j: nat)
    requires MidInv(p, C, R, i) && i < p.nCol - 1 && k < |C| && j < p.nCol
    requires |p.a| < p.mxSample || IsBetter(Candidate(p, i), p.a[p.iMin])
    requires Covered(p.a, p.nCol, p.mxSample, j, Start(C, k, j), RunLength(C, k, j))
    ensures var b := Kept(p) + [ZeroFirst(Candidate(p, i), i)];
      AllShaped(b, p.nCol) && Covered(b, p.nCol, p.mxSample, j, Start(C, k, j), RunLength(C, k, j))
  {
    var z := ZeroFirst(Candidate(p, i), i);
    CandidateOk(p, C, R, i);
    if |p.a| < p.mxSample {
      AddCovers(p.a, p.nCol, p.mxSample, z, j, Start(C, k, j), RunLength(C, k, j));
    } else {
      MinWeight(p);
      MinStands(p, C, R, i, k, j);
      DropCovers(p.a, p.nCol, p.mxSample, p.iMin, z, j, Start(C, k, j), RunLength(C, k, j));
    }
  }

  lemma MinStands(p: Accum, C: seq<nat>, R: seq<int>, i: int, k: nat, j: nat)
    requires Ready(p) && |p.a| == p.mxSample && p.nCol > 0 && SamplesOk(p.a, p.current, C, R, p.nCol, i)
    requires k < |C| && j < p.nCol
    ensures !p.a[p.iMin].isPSample
    ensures Stands(p.a[p.iMin], j, Start(C, k, j)) ==> Weight(p.a[p.iMin]) >= RunLength(C, k, j)
  {
    var s := p.a[p.iMin];
    assert SampleOk(s, p.current, C, R, p.nCol, i);
    if Stands(s, j, Start(C, k, j)) {
      StandsForLess(s, p.current, C, R, p.nCol, i, k, j);
    }
  }

  /** The run that ends now is covered once its candidate has been offered. */
  lemma OfferCovers(p: Accum, C: seq<nat>, R: seq<int>, i: nat)
    requires MidInv(p, C, R, i) && i < p.nCol - 1
    ensures Covered(PushOne(p, i).a, p.nCol, p.mxSample, i, p.current.anLt[i], p.current.anEq[i])
  {
    var c, n := Candidate(p, i), p.nCol;
    CandidateOk(p, C, R, i);
    if |p.a| < p.mxSample || IsBetter(c, p.a[p.iMin]) {
      var f := FindSharer(p.a, n, i, |p.a|, -1);
      hide MidInv, Covered;
      if f.Blocked? || f.up >= 0 {
        SharerStands(p, C, R, i);
      } else {
        var b := Kept(p) + [ZeroFirst(c, i)];
        assert PushOne(p, i).a == b;
        Found1(b, |b| - 1, n, p.mxSample, i, p.current.anLt[i], p.current.anEq[i]);
      }
    } else {
      RefusedCovers(p, C, R, i);
    }
  }

  lemma Found1(a: seq<Sample>, x: nat, nCol: nat, mx: nat, j: nat, st: nat, len: nat)
    requires AllShaped(a, nCol) && x < |a| && Stands(a[x], j, st)
    ensures Covered(a, nCol, mx, j, st, len)
  {
  }

  lemma RefusedCovers(p: Accum, C: seq<nat>, R: seq<int>, i: nat)
    requires MidInv(p, C, R, i) && i < p.nCol - 1
    requires |p.a| == p.mxSample && !IsBetter(Candidate(p, i), p.a[p.iMin])
    ensures Covered(p.a, p.nCol, p.mxSample, i, p.current.anLt[i], p.current.anEq[i])
  {
    CandidateOk(p, C, R, i);
    MinWeight(p);
    assert Weight(p.a[p.iMin]) >= Weight(Candidate(p, i));
    assert Outweighed(p.a, p.nCol, p.mxSample, p.current.anEq[i]);
  }

  /** A periodic sample of the run, or one upgraded for it, stands for it. */
  lemma SharerStands(p: Accum, C: seq<nat>, R: seq<int>, i: nat)
    requires MidInv(p, C, R, i) && i < p.nCol - 1
    requires |p.a| < p.mxSample || IsBetter(Candidate(p, i), p.a[p.iMin])
    requires Candidate(p, i).iCol == i && !Candidate(p, i).isPSample
    requires var f := FindSharer(p.a, p.nCol, i, |p.a|, -1); f.Blocked? || f.up >= 0
    ensures Covered(PushOne(p, i).a, p.nCol, p.mxSample, i, p.current.anLt[i], p.current.anEq[i])
  {
    var f := FindSharer(p.a, p.nCol, i, |p.a|, -1);
    FindSharerFinds(p.a, p.nCol, i, |p.a|, -1);
    var k := if f.Blocked? then BlockerOf(p, i) else f.up;
    assert SampleOk(p.a[k], p.current, C, R, p.nCol, i);
    var r := PushOne(p, i);
    assert Stands(r.a[k], i, p.current.anLt[i]);
    Found1(r.a, k, p.nCol, p.mxSample, i, p.current.anLt[i], p.current.anEq[i]);
  }

  ghost function BlockerOf(p: Accum, i: nat): (k: nat)
    requires i < p.nCol && AllShaped(p.a, p.nCol)
    requires exists k :: 0 <= k < |p.a| && p.a[k].isPSample && p.a[k].anEq[i] == 0
    ensures k < |p.a| && p.a[k].isPSample && p.a[k].anEq[i] == 0
  {
    var k :| 0 <= k < |p.a| && p.a[k].isPSample && p.a[k].anEq[i] == 0;
    k
  }

  // ---------------------------------------------------------------- the invariant

  /** The run of column j around row k is over, or its candidate has been offered. */
  predicate Over(C: seq<nat>, k: nat, j: nat, t: int)
    requires k < |C|
  {
    Next(C, k, j) < |C| || t < j
  }

  ghost predicate CoverInv(p: Accum, C: seq<nat>, t: int) {
    && AllShaped(p.a, p.nCol)
    && forall k, j {:trigger Over(C, k, j, t)} :: 0 <= k < |C| && 0 <= j < p.nCol - 1 && Over(C, k, j, t) ==>
         Covered(p.a, p.nCol, p.mxSample, j, Start(C, k, j), RunLength(C, k, j))
  }

  lemma PushOneCovers(p: Accum, C: seq<nat>, R: seq<int>, i: nat)
    requires MidInv(p, C, R, i) && i < p.nCol - 1 && CoverInv(p, C, i)
    ensures CoverInv(PushOne(p, i), C, i - 1)
  {
    hide Covered, PushOne, RunLength, Start;
    var r := PushOne(p, i);
    OfferCovers(p, C, R, i);
    forall k, j {:trigger Over(C, k, j, i - 1)} | 0 <= k < |C| && 0 <= j < p.nCol - 1 && Over(C, k, j, i - 1)
      ensures Covered(r.a, p.nCol, p.mxSample, j, Start(C, k, j), RunLength(C, k, j))
    {
      if Over(C, k, j, i) {
        OfferKeepsCover(p, C, R, i, k, j);
      } else {
        CurrentRun(p.current, C, R, p.nCol, k, i);
      }
    }
  }

  /** A run that reaches the last row is that of the current row. */
  lemma CurrentRun(cur: Sample, C: seq<nat>, R: seq<int>, nCol: nat, k: nat, j: nat)
    requires IsCurrent(cur, C, R, nCol) && k < |C| && j < nCol && Next(C, k, j) == |C|
    ensures Start(C, k, j) == cur.anLt[j] && RunLength(C, k, j) == cur.anEq[j]
  {
    NextAtEnd(C, k, j);
  }

  lemma {:induction false} PushBestsCovers(p: Accum, C: seq<nat>, R: seq<int>, i: int, iChng: nat)
    requires MidInv(p, C, R, i) && i < p.nCol - 1 && i + 1 >= iChng && CoverInv(p, C, i)
    ensures CoverInv(PushBests(p, i, iChng), C, iChng - 1)
    decreases i + 1
  {
    hide CoverInv, MidInv, PushOne;
    if i >= iChng {
      PushOneKeeps(p, C, R, i);
      PushOneCovers(p, C, R, i);
      MidFacts(p, C, R, i);
      PushOneReady(p, i);
      PushBestsCovers(PushOne(p, i), C, R, i - 1, iChng);
    }
  }

  lemma MidFacts(p: Accum, C: seq<nat>, R: seq<int>, i: int)
    requires MidInv(p, C, R, i)
    ensures Ready(p) && Shaped(p)
  {
  }

  /** Filling in the open counters changes neither rows nor weights. */
  lemma FillCovers(p: Accum, C: seq<nat>, R: seq<int>, iChng: nat, t: int)
    requires MidInv(p, C, R, t) && CoverInv(p, C, t)
    ensures CoverInv(FillAll(p, iChng), C, t)
  {
    var r := FillAll(p, iChng);
    assert forall x {:trigger r.a[x]} :: 0 <= x < |r.a| ==>
      r.a[x].anLt == p.a[x].anLt && r.a[x].iCol == p.a[x].iCol && r.a[x].isPSample == p.a[x].isPSample
      && (!p.a[x].isPSample ==> Weight(r.a[x]) == Weight(p.a[x])) by {
      assert forall x {:trigger p.a[x]} :: 0 <= x < |p.a| ==> SampleOk(p.a[x], p.current, C, R, p.nCol, t);
    }
    forall k, j {:trigger Over(C, k, j, t)} | 0 <= k < |C| && 0 <= j < p.nCol - 1 && Over(C, k, j, t)
      ensures Covered(r.a, p.nCol, p.mxSample, j, Start(C, k, j), RunLength(C, k, j))
    {
      SameCover(p.a, r.a, p.nCol, p.mxSample, j, Start(C, k, j), RunLength(C, k, j));
    }
  }

  lemma SameCover(a: seq<Sample>, b: seq<Sample>, nCol: nat, mx: nat, j: nat, st: nat, len: nat)
    requires AllShaped(a, nCol) && AllShaped(b, nCol) && |a| == |b| && Covered(a, nCol, mx, j, st, len)
    requires forall x {:trigger b[x]} :: 0 <= x < |b| ==>
      b[x].anLt == a[x].anLt && b[x].iCol == a[x].iCol && b[x].isPSample == a[x].isPSample
      && (!a[x].isPSample ==> Weight(b[x]) == Weight(a[x]))
    ensures Covered(b, nCol, mx, j, st, len)
  {
    if Represented(a, j, st) {
      var x :| 0 <= x < |a| && Stands(a[x], j, st);
      assert Stands(b[x], j, st);
    }
  }

  /** A new row closes the runs it does not continue, whose candidates have all been offered. */
  lemma ArriveCovers(p: Accum, C: seq<nat>, c: nat, t: int)
    requires CoverInv(p, C, c - 1)
    requires t >= p.nCol - 2
    ensures CoverInv(p, C + [c], t)
  {
    var D := C + [c];
    forall k, j {:trigger Over(D, k, j, t)} | 0 <= k < |D| && 0 <= j < p.nCol - 1 && Over(D, k, j, t)
      ensures Covered(p.a, p.nCol, p.mxSample, j, Start(D, k, j), RunLength(D, k, j))
    {
      assert k < |C|;
      Grow(C, c, k, j);
      GrowNext(C, c, k, j);
      assert Over(C, k, j, c - 1);
    }
  }

  lemma TakeCovers(p: Accum, C: seq<nat>, R: seq<int>, iChng: nat, t: int)
    requires ArrivedInv(p, C, R, iChng) && Periodics(p.a) + 1 < p.mxSample && CoverInv(p, C, t)
    ensures CoverInv(TakePeriodic(p), C, t)
  {
    if IsPeriodic(p.current.anLt[p.nCol - 1], p.nPSample) {
      var r := TakePeriodic(p);
      var z := ZeroFirst(p.current.(isPSample := true, iCol := 0), p.nCol - 1);
      assert r.a == Kept(p) + [z];
      forall k, j {:trigger Over(C, k, j, t)} | 0 <= k < |C| && 0 <= j < p.nCol - 1 && Over(C, k, j, t)
        ensures Covered(r.a, p.nCol, p.mxSample, j, Start(C, k, j), RunLength(C, k, j))
      {
        PeriodicCovers(p, C, R, iChng, z, k, j);
      }
    }
  }

  lemma PeriodicCovers(p: Accum, C: seq<nat>, R: seq<int>, iChng: nat, z: Sample, k: nat, j: nat)
    requires ArrivedInv(p, C, R, iChng) && ShapedSample(z, p.nCol) && z.isPSample && k < |C| && j < p.nCol
    requires Covered(p.a, p.nCol, p.mxSample, j, Start(C, k, j), RunLength(C, k, j))
    ensures AllShaped(Kept(p) + [z], p.nCol)
    ensures Covered(Kept(p) + [z], p.nCol, p.mxSample, j, Start(C, k, j), RunLength(C, k, j))
  {
    if |p.a| < p.mxSample {
      AddCovers(p.a, p.nCol, p.mxSample, z, j, Start(C, k, j), RunLength(C, k, j));
    } else {
      MinWeight(p);
      MinStands(p, C, R, p.nCol - 2, k, j);
      DropCovers(p.a, p.nCol, p.mxSample, p.iMin, z, j, Start(C, k, j), RunLength(C, k, j));
    }
  }

  // ---------------------------------------------------------------- pushes and runs

  lemma PushPreviousCovers(p: Accum, C: seq<nat>, R: seq<int>, iChng: nat)
    requires Inv(p, C, R) && iChng < p.nCol && CoverInv(p, C, p.nCol - 2)
    ensures CoverInv(PushPrevious(p, iChng), C, iChng - 1)
  {
    hide CoverInv, PushOne, MidInv, FillAll;
    MidFacts(p, C, R, p.nCol - 2);
    var q := PushBests(p, p.nCol - 2, iChng);
    PushBestsCovers(p, C, R, p.nCol - 2, iChng);
    PushBestsKeeps(p, C, R, p.nCol - 2, iChng);
    FillCovers(q, C, R, iChng, iChng - 1);
    assert PushPrevious(p, iChng) == FillAll(q, iChng);
  }

  /** One stat_push. */
  lemma StatPushCovers(p: Accum, C: seq<nat>, R: seq<int>, c: nat, rowid: int)
    requires Inv(p, C, R) && c < p.nCol && Periodics(p.a) + 1 < p.mxSample && CoverInv(p, C, p.nCol - 2)
    ensures CoverInv(StatPush(p, c, rowid), C + [c], p.nCol - 2)
  {
    hide Inv, MidInv, ClosedInv, ArrivedInv, UpdateBest, TakePeriodic, PushPrevious, Ready, Shaped;
    InvFacts(p, C, R);
    var p1 := PushPrevious(p, c);
    ReadyShaped(p1);
    var p2 := ArriveRow(p1, c, rowid);
    PushPreviousCloses(p, C, R, c);
    PushPreviousCovers(p, C, R, c);
    RowArrives(p1, C, R, c, rowid);
    ArriveCovers(p1, C, c, p.nCol - 2);
    SameSamples(p1, p2, C + [c], p.nCol - 2);
    StepFacts(p2, C + [c], R + [rowid], c);
    TakeCovers(p2, C + [c], R + [rowid], c, p.nCol - 2);
    TakeReady(p2);
    SameSamples(TakePeriodic(p2), UpdateBest(TakePeriodic(p2), c), C + [c], p.nCol - 2);
  }

  lemma SameSamples(p: Accum, q: Accum, C: seq<nat>, t: int)
    requires CoverInv(p, C, t) && q.a == p.a && q.nCol == p.nCol && q.mxSample == p.mxSample
    ensures CoverInv(q, C, t)
  {
  }

  lemma ReadyShaped(p: Accum)
    requires Ready(p)
    ensures Shaped(p)
  {
  }

  /** Nothing is over after the first row. */
  lemma FirstRowCovers(p: Accum, C: seq<nat>)
    requires |C| == 1 && AllShaped(p.a, p.nCol)
    ensures CoverInv(p, C, p.nCol - 2)
  {
  }

  lemma {:induction false} PushedCovers(p0: Accum, C: seq<nat>, R: seq<int>, nTotal: nat)
    requires Told(p0, C, R, nTotal) && C != []
    ensures CoverInv(Pushed(p0, C, R, nTotal), C, p0.nCol - 2)
    decreases |C|
  {
    hide Inv, Ready, Changes, StatPush, CoverInv, Told;
    var n := |C| - 1;
    ToldPrefix(p0, C, R, nTotal);
    TalliesMatch(p0, C, R, nTotal);
    var q := Pushed(p0, C[..n], R[..n], nTotal);
    PushedStep(p0, q, C[..n], R[..n], C[n], R[n], nTotal);
    assert C[..n] + [C[n]] == C && R[..n] + [R[n]] == R;
    if n == 0 {
      var p := StatPush(q, C[n], R[n]);
      ReadyShaped(p);
      ShapedSamples(p);
      FirstRowCovers(p, C);
    } else {
      PushedCovers(p0, C[..n], R[..n], nTotal);
      StatPushCovers(q, C[..n], R[..n], C[n], R[n]);
    }
  }

  lemma ShapedSamples(p: Accum)
    requires Shaped(p)
    ensures AllShaped(p.a, p.nCol)
  {
  }

  lemma TalliesMatch(p0: Accum, C: seq<nat>, R: seq<int>, nTotal: nat)
    requires Told(p0, C, R, nTotal)
    ensures |R| == |C| <= nTotal && p0.nPSample > 0
  {
  }

  lemma PushedFacts(p0: Accum, C: seq<nat>, R: seq<int>, nTotal: nat)
    requires Told(p0, C, R, nTotal) && C != []
    ensures var q := Pushed(p0, C, R, nTotal);
      Ready(q) && Inv(q, C, R) && q.nCol == p0.nCol > 0 && q.mxSample == p0.mxSample
  {
    hide Inv;
    TellsColumns(p0, C, R, nTotal);
  }

  lemma TellsColumns(p0: Accum, C: seq<nat>, R: seq<int>, nTotal: nat)
    requires Told(p0, C, R, nTotal)
    ensures p0.nCol > 0 && p0.nPSample > 0
  {
  }

  /** The sampler after the pushes and the closing samplePushPrevious(p, 0). */
  function Finished(p0: Accum, C: seq<nat>, R: seq<int>, nTotal: nat): (r: Accum)
    requires Told(p0, C, R, nTotal) && C != []
    ensures AllShaped(r.a, p0.nCol) && r.nCol == p0.nCol && r.mxSample == p0.mxSample
  {
    PushedFacts(p0, C, R, nTotal);
    ReadyShaped(PushPrevious(Pushed(p0, C, R, nTotal), 0));
    ShapedSamples(PushPrevious(Pushed(p0, C, R, nTotal), 0));
    hide State, Told, Inv, Ready, Shaped, AllShaped;
    PushPrevious(Pushed(p0, C, R, nTotal), 0)
  }

  lemma FinishedIs(p0: Accum, C: seq<nat>, R: seq<int>, nTotal: nat)
    requires Told(p0, C, R, nTotal) && C != []
    ensures Ready(Pushed(p0, C, R, nTotal))
    ensures Finished(p0, C, R, nTotal) == PushPrevious(Pushed(p0, C, R, nTotal), 0)
  {
    PushedFacts(p0, C, R, nTotal);
    hide State, Told, Inv, Ready, Pushed, PushPrevious;
  }

  lemma CoverAt(p: Accum, C: seq<nat>, t: int, k: nat, j: nat)
    requires CoverInv(p, C, t) && k < |C| && t < j < p.nCol - 1
    ensures AllShaped(p.a, p.nCol) && Covered(p.a, p.nCol, p.mxSample, j, Start(C, k, j), RunLength(C, k, j))
  {
    assert Over(C, k, j, t);
    hide Covered, Start, RunLength, Next;
  }

  /** Then every run is covered. */
  lemma RunsCovered(p0: Accum, C: seq<nat>, R: seq<int>, nTotal: nat, k: nat, j: nat)
    requires Told(p0, C, R, nTotal) && C != [] && k < |C| && j < p0.nCol - 1
    ensures Covered(Finished(p0, C, R, nTotal).a, p0.nCol, p0.mxSample, j, Start(C, k, j), RunLength(C, k, j))
  {
    hide *;
    PushedFacts(p0, C, R, nTotal);
    PushedCovers(p0, C, R, nTotal);
    FinishedIs(p0, C, R, nTotal);
    PushPreviousCovers(Pushed(p0, C, R, nTotal), C, R, 0);
    CoverAt(Finished(p0, C, R, nTotal), C, -1, k, j);
  }

  lemma FinishedExact(p0: Accum, C: seq<nat>, R: seq<int>, nTotal: nat)
    requires Told(p0, C, R, nTotal) && C != []
    ensures forall x :: 0 <= x < |Finished(p0, C, R, nTotal).a| ==>
      Exact(Finished(p0, C, R, nTotal).a[x], C, R, p0.nCol)
  {
    hide *;
    AllExact(p0, C, R, nTotal);
    FinishedIs(p0, C, R, nTotal);
  }

  /** Some sample has the first n columns of row k, or the array is full and every non-periodic sample
      is kept for a prefix that at least as many rows share. */
  ghost predicate Sampled(a: seq<Sample>, nCol: nat, mx: nat, rows: seq<seq<int>>, k: nat, n: nat)
    requires nCol > 0 && SortedRows(rows, nCol) && AllShaped(a, nCol) && k < |rows| && n <= nCol
  {
    || (exists x :: 0 <= x < |a| && Row(a[x]) < |rows| && EqualOn(rows[Row(a[x])], rows[k], n))
    || (|a| == mx && forall x {:trigger a[x]} :: 0 <= x < |a| && !a[x].isPSample ==>
         Weight(a[x]) >= |EqualRows(rows, k, n)|)
  }

  lemma CoveredMeansSampled(a: seq<Sample>, nCol: nat, mx: nat, rows: seq<seq<int>>, R: seq<int>, k: nat, j: nat)
    requires nCol > 0 && SortedRows(rows, nCol) && AllShaped(a, nCol) && k < |rows| && j < nCol
    requires forall x :: 0 <= x < |a| ==> Exact(a[x], ChangesOf(rows, nCol), R, nCol)
    requires Covered(a, nCol, mx, j, Start(ChangesOf(rows, nCol), k, j), RunLength(ChangesOf(rows, nCol), k, j))
    ensures Sampled(a, nCol, mx, rows, k, j + 1)
  {
    var C := ChangesOf(rows, nCol);
    RunCounts(rows, nCol, k, j);
    if Represented(a, j, Start(C, k, j)) {
      var x :| 0 <= x < |a| && Stands(a[x], j, Start(C, k, j));
      assert Exact(a[x], C, R, nCol);
      SamePrefixAs(rows, nCol, Row(a[x]), k, j);
    }
  }

  /** The result in terms of the rows: after any sorted rows have been pushed and the runs closed, no
      prefix of a row is missing from the samples unless the array is full of more frequent ones. */
  lemma FrequentPrefixesSampled(p0: Accum, rows: seq<seq<int>>, C: seq<nat>, R: seq<int>, nTotal: nat, k: nat, n: nat)
    requires p0.nCol > 0 && SortedRows(rows, p0.nCol) && C == ChangesOf(rows, p0.nCol)
    requires Told(p0, C, R, nTotal) && k < |rows| && 0 < n < p0.nCol
    ensures Sampled(Finished(p0, C, R, nTotal).a, p0.nCol, p0.mxSample, rows, k, n)
  {
    hide *;
    FinishedExact(p0, C, R, nTotal);
    RunsCovered(p0, C, R, nTotal, k, n - 1);
    CoveredMeansSampled(Finished(p0, C, R, nTotal).a, p0.nCol, p0.mxSample, rows, R, k, n - 1);
  }

  lemma SamePrefixAs(rows: seq<seq<int>>, nCol: nat, m: nat, k: nat, j: nat)
    requires SortedRows(rows, nCol) && j < nCol && m < |rows| && k < |rows|
    requires Start(ChangesOf(rows, nCol), m, j) == Start(ChangesOf(rows, nCol), k, j)
    ensures EqualOn(rows[m], rows[k], j + 1)
  {
    if m <= k {
      RunMeansPrefix(rows, nCol, m, k, j);
    } else {
      RunMeansPrefix(rows, nCol, k, m, j);
      DiffSym(rows[k], rows[m], j + 1);
    }
  }
}
