/** Which row the sampler offers for a run: the one whose counts right of the run's column are
    lexicographically greatest, ties being broken by the hash. */
module Stat4Candidates {
  import opened Stat4Runs
  import opened Stat4Sampler
  import opened Stat4Proof

  // ---------------------------------------------------------------- the order, declared

  /** The counts of x and y agree from column i up to column j. */
  predicate AgreeUpTo(x: Sample, y: Sample, i: nat, j: nat)
    requires j <= |x.anEq| == |y.anEq|
  {
    forall m :: i <= m < j ==> x.anEq[m] == y.anEq[m]
  }

  /** The first count that differs is greater, or none differs and the hash is greater. */
  ghost predicate Greater(x: Sample, y: Sample, i: nat)
    requires |x.anEq| == |y.anEq|
  {
    || (exists j {:trigger x.anEq[j]} :: i <= j < |x.anEq| && AgreeUpTo(x, y, i, j) && x.anEq[j] > y.anEq[j])
    || (AgreeUpTo(x, y, i, |x.anEq|) && x.iHash > y.iHash)
  }

  lemma {:induction false} BetterFromMeans(x: Sample, y: Sample, i: nat)
    requires |x.anEq| == |y.anEq|
    ensures BetterFrom(x, y, i) <==> Greater(x, y, i)
    decreases |x.anEq| - i
  {
    if i < |x.anEq| {
      BetterFromMeans(x, y, i + 1);
      if x.anEq[i] == y.anEq[i] {
        assert forall j :: i < j <= |x.anEq| ==> (AgreeUpTo(x, y, i, j) <==> AgreeUpTo(x, y, i + 1, j));
      } else {
        assert forall j :: i < j <= |x.anEq| ==> !AgreeUpTo(x, y, i, j);
        assert AgreeUpTo(x, y, i, i);
      }
    }
  }

  /** sampleIsBetter: the count of the run a sample is kept for decides, then the column (the smaller
      wins), then the counts right of it, then the hash. */
  lemma PreferenceMeans(x: Sample, y: Sample, nCol: nat)
    requires ShapedSample(x, nCol) && ShapedSample(y, nCol)
    ensures IsBetter(x, y) <==>
      || x.anEq[x.iCol] > y.anEq[y.iCol]
      || (x.anEq[x.iCol] == y.anEq[y.iCol] && x.iCol < y.iCol)
      || (x.anEq[x.iCol] == y.anEq[y.iCol] && x.iCol == y.iCol && Greater(x, y, x.iCol + 1))
  {
    BetterFromMeans(x, y, x.iCol + 1);
  }

  // ---------------------------------------------------------------- rows as they stood

  /** The pseudo-random number after n rows. */
  function HashAt(h0: nat, n: nat): nat {
    if n == 0 then h0 else NextHash(HashAt(h0, n - 1))
  }

  /** Row k as it stood when it was the current one, to be kept for column t. */
  function AsSeen(C: seq<nat>, h0: nat, k: nat, t: nat, nCol: nat): (s: Sample)
    requires k < |C|
    ensures |s.anEq| == nCol && s.iCol == t && s.iHash == HashAt(h0, k + 1)
    ensures forall j :: 0 <= j < nCol ==> s.anEq[j] == k + 1 - Start(C, k, j)
  {
    Sample(seq(nCol, j requires 0 <= j < nCol => k + 1 - Start(C, k, j)), [], [], 0, false, t, HashAt(h0, k + 1))
  }

  /** Two samples with the same counts right of column t and the same hash. */
  predicate SameRight(x: Sample, y: Sample, t: nat) {
    |x.anEq| == |y.anEq| && x.iHash == y.iHash && forall j :: t < j < |x.anEq| ==> x.anEq[j] == y.anEq[j]
  }

  lemma {:induction false} SameNotBetter(x: Sample, y: Sample, i: nat)
    requires |x.anEq| == |y.anEq| && x.iHash == y.iHash && forall j :: i <= j < |x.anEq| ==> x.anEq[j] == y.anEq[j]
    ensures !BetterFrom(x, y, i)
    decreases |x.anEq| - i
  {
    if i < |x.anEq| { SameNotBetter(x, y, i + 1); }
  }

  /** The candidate of column t is one of the rows of the run under way, and no row of the run, as it
      stood when it was current, is preferred to it. */
  ghost predicate Preferred(b: Sample, C: seq<nat>, h0: nat, t: nat, nCol: nat) {
    && C != [] && |b.anEq| == nCol && b.iCol == t && |b.anLt| > 0
    && Start(C, |C| - 1, t) <= Row(b) < |C| && SameRight(b, AsSeen(C, h0, Row(b), t, nCol), t)
    && forall k {:trigger AsSeen(C, h0, k, t, nCol)} :: Start(C, |C| - 1, t) <= k < |C| ==>
         !IsBetterPost(AsSeen(C, h0, k, t, nCol), b)
  }

  /** What holds between calls, besides the invariant of Stat4Proof. */
  ghost predicate CandidatesOk(p: Accum, C: seq<nat>, h0: nat) {
    && |p.aBest| == p.nCol && p.iPrn == HashAt(h0, |C|) && p.current.iHash == HashAt(h0, |C|)
    && forall t {:trigger p.aBest[t]} :: 0 <= t < p.nCol - 1 ==> Preferred(p.aBest[t], C, h0, t, p.nCol)
  }

  // ---------------------------------------------------------------- one push

  lemma SeenGrows(C: seq<nat>, c: nat, h0: nat, k: nat, t: nat, nCol: nat)
    requires k < |C|
    ensures AsSeen(C + [c], h0, k, t, nCol) == AsSeen(C, h0, k, t, nCol)
  {
    forall j | 0 <= j < nCol
      ensures Start(C + [c], k, j) == Start(C, k, j)
    {
      Grow(C, c, k, j);
    }
    assert AsSeen(C + [c], h0, k, t, nCol).anEq == AsSeen(C, h0, k, t, nCol).anEq;
  }

  /** The current row looks the same to the comparison as the row just seen. */
  lemma CurrentSeen(cur: Sample, C: seq<nat>, R: seq<int>, h0: nat, t: nat, nCol: nat)
    requires IsCurrent(cur, C, R, nCol) && C != [] && cur.iHash == HashAt(h0, |C|)
    ensures |cur.anEq| == nCol && |cur.anLt| > 0 && Row(cur.(iCol := t)) == |C| - 1
    ensures SameRight(cur.(iCol := t), AsSeen(C, h0, |C| - 1, t, nCol), t)
  {
  }

  /** Transitivity through the current row: what does not beat the old candidate does not beat the new. */
  lemma StillBeaten(x: Sample, cur: Sample, b: Sample, t: nat)
    requires |x.anEq| == |cur.anEq| == |b.anEq| && BetterFrom(cur, b, t + 1) && !BetterFrom(x, b, t + 1)
    ensures !BetterFrom(x, cur, t + 1)
  {
    BetterFromOrder(cur, x, b, t + 1);
    BetterFromOrder(x, cur, cur, t + 1);
  }

  /** A row that starts the run is its only one. */
  lemma StartsRun(cur: Sample, C: seq<nat>, R: seq<int>, h0: nat, t: nat, nCol: nat)
    requires IsCurrent(cur, C, R, nCol) && C != [] && cur.iHash == HashAt(h0, |C|) && t < nCol
    requires Start(C, |C| - 1, t) == |C| - 1
    ensures Preferred(cur.(iCol := t), C, h0, t, nCol)
  {
    CurrentSeen(cur, C, R, h0, t, nCol);
    SameNotBetter(AsSeen(C, h0, |C| - 1, t, nCol), cur.(iCol := t), t + 1);
    hide IsCurrent;
  }

  /** No row of the run up to row n is preferred to s. */
  ghost predicate NoneBetter(s: Sample, D: seq<nat>, h0: nat, t: nat, nCol: nat, st: nat, n: nat)
    requires n <= |D| && |s.anEq| == nCol
  {
    forall k {:trigger AsSeen(D, h0, k, t, nCol)} :: st <= k < n ==> !IsBetterPost(AsSeen(D, h0, k, t, nCol), s)
  }

  /** A row that continues the run does not change what is known of the rows before it. */
  lemma OldRows(b: Sample, C: seq<nat>, c: nat, h0: nat, t: nat, nCol: nat)
    requires t < c && Preferred(b, C, h0, t, nCol)
    ensures
      var D, st := C + [c], Start(C, |C| - 1, t);
      && Start(D, |C|, t) == st <= Row(b) < |C| && SameRight(b, AsSeen(D, h0, Row(b), t, nCol), t)
      && NoneBetter(b, D, h0, t, nCol, st, |C|)
  {
    var D := C + [c];
    Grow(C, c, |C| - 1, t);
    SeenGrows(C, c, h0, Row(b), t, nCol);
    hide IsBetterPost, SameRight, AsSeen;
    forall k {:trigger AsSeen(D, h0, k, t, nCol)} | Start(C, |C| - 1, t) <= k < |C|
      ensures !IsBetterPost(AsSeen(D, h0, k, t, nCol), b)
    {
      SeenGrows(C, c, h0, k, t, nCol);
      assert !IsBetterPost(AsSeen(C, h0, k, t, nCol), b);
    }
  }

  /** The new row takes the place. */
  lemma NewRowWins(b: Sample, n: Sample, D: seq<nat>, h0: nat, t: nat, nCol: nat, st: nat)
    requires |D| > 0 && |b.anEq| == |n.anEq| == nCol && n.iCol == t && IsBetterPost(n, b)
    requires NoneBetter(b, D, h0, t, nCol, st, |D| - 1) && SameRight(n, AsSeen(D, h0, |D| - 1, t, nCol), t)
    ensures NoneBetter(n, D, h0, t, nCol, st, |D|)
  {
    forall k {:trigger AsSeen(D, h0, k, t, nCol)} | st <= k < |D|
      ensures !IsBetterPost(AsSeen(D, h0, k, t, nCol), n)
    {
      var x := AsSeen(D, h0, k, t, nCol);
      if k < |D| - 1 {
        assert !IsBetterPost(x, b);
        StillBeaten(x, n, b, t);
      } else {
        SameNotBetter(x, n, t + 1);
      }
    }
  }

  /** The candidate stays. */
  lemma OldRowStays(b: Sample, n: Sample, D: seq<nat>, h0: nat, t: nat, nCol: nat, st: nat)
    requires |D| > 0 && |b.anEq| == |n.anEq| == nCol && n.iCol == t && !IsBetterPost(n, b)
    requires NoneBetter(b, D, h0, t, nCol, st, |D| - 1) && SameRight(n, AsSeen(D, h0, |D| - 1, t, nCol), t)
    ensures NoneBetter(b, D, h0, t, nCol, st, |D|)
  {
    SameFrom(n, b, AsSeen(D, h0, |D| - 1, t, nCol), b, t + 1);
  }

  /** A row that continues the run takes the candidate's place exactly when it is preferred. */
  lemma ContinuesRun(b: Sample, cur: Sample, C: seq<nat>, R: seq<int>, c: nat, h0: nat, t: nat, nCol: nat)
    requires C != [] && t < c && t < nCol && Preferred(b, C, h0, t, nCol)
    requires IsCurrent(cur, C + [c], R, nCol) && cur.iHash == HashAt(h0, |C| + 1)
    ensures Preferred(BestAfter(b, cur, t, c), C + [c], h0, t, nCol)
  {
    hide *;
    var D, st, n := C + [c], Start(C, |C| - 1, t), cur.(iCol := t);
    PreferredShape(b, C, h0, t, nCol);
    OldRows(b, C, c, h0, t, nCol);
    CurrentSeen(cur, D, R, h0, t, nCol);
    BestCases(b, cur, t, c);
    if IsBetterPost(n, b) {
      NewRowWins(b, n, D, h0, t, nCol, st);
      PreferredFrom(n, D, h0, t, nCol);
    } else {
      OldRowStays(b, n, D, h0, t, nCol, st);
      PreferredFrom(b, D, h0, t, nCol);
    }
  }

  lemma BestCases(b: Sample, cur: Sample, t: nat, c: nat)
    requires t < c && |b.anEq| == |cur.anEq|
    ensures BestAfter(b, cur, t, c) == if IsBetterPost(cur.(iCol := t), b) then cur.(iCol := t) else b
  {
  }

  lemma PreferredShape(b: Sample, C: seq<nat>, h0: nat, t: nat, nCol: nat)
    requires Preferred(b, C, h0, t, nCol)
    ensures C != [] && |b.anEq| == nCol && b.iCol == t && |b.anLt| > 0
    ensures Start(C, |C| - 1, t) <= Row(b) < |C| && SameRight(b, AsSeen(C, h0, Row(b), t, nCol), t)
  {
  }

  lemma PreferredFrom(s: Sample, D: seq<nat>, h0: nat, t: nat, nCol: nat)
    requires D != [] && |s.anEq| == nCol && s.iCol == t && |s.anLt| > 0
    requires Start(D, |D| - 1, t) <= Row(s) < |D| && SameRight(s, AsSeen(D, h0, Row(s), t, nCol), t)
    requires NoneBetter(s, D, h0, t, nCol, Start(D, |D| - 1, t), |D|)
    ensures Preferred(s, D, h0, t, nCol)
  {
  }

  lemma OneSpares(p: Accum, i: nat, t: nat)
    requires Ready(p) && i < p.nCol && t < i
    ensures Ready(PushOne(p, i)) && PushOne(p, i).nCol == p.nCol
    ensures |PushOne(p, i).aBest| == |p.aBest| == p.nCol && PushOne(p, i).aBest[t] == p.aBest[t]
  {
    PushOneReady(p, i);
  }

  /** Closing the runs that end leaves the candidates of the others alone. */
  lemma {:induction false} PushBestsSpares(p: Accum, i: int, iChng: nat, t: nat)
    requires Ready(p) && i < p.nCol && t < iChng && t < p.nCol
    ensures |PushBests(p, i, iChng).aBest| == |p.aBest| == p.nCol && PushBests(p, i, iChng).aBest[t] == p.aBest[t]
    decreases i + 1
  {
    if i >= iChng {
      OneSpares(p, i, t);
      hide Ready, PushOne;
      PushBestsSpares(PushOne(p, i), i - 1, iChng, t);
    }
  }

  lemma PushPreviousSpares(p: Accum, iChng: nat, t: nat)
    requires Ready(p) && t < iChng && t < p.nCol
    ensures |PushPrevious(p, iChng).aBest| == |p.aBest| == p.nCol && PushPrevious(p, iChng).aBest[t] == p.aBest[t]
  {
    hide PushBests, Ready;
    PushBestsSpares(p, p.nCol - 2, iChng, t);
  }

  /** What a push makes of the candidates: p1 is the sampler once the runs that end are closed. */
  lemma PushedBests(p: Accum, c: nat, rowid: int)
    requires Ready(p) && Periodics(p.a) + 1 < p.mxSample
    ensures
      var p1, r := if p.nRow == 0 then p else PushPrevious(p, c), StatPush(p, c, rowid);
      && r.nCol == p1.nCol == p.nCol == |p1.aBest| == |r.aBest| && r.iPrn == r.current.iHash == NextHash(p.iPrn)
      && ShapedSample(r.current, r.nCol) && AllShaped(p1.aBest, p.nCol)
      && forall t {:trigger r.aBest[t]} :: 0 <= t < p.nCol - 1 ==>
           r.aBest[t] == BestAfter(p1.aBest[t], r.current, t, c)
  {
    var p1 := if p.nRow == 0 then p else PushPrevious(p, c);
    var p2 := ArriveRow(p1, c, rowid);
    ArriveReady(p1, c, rowid);
    TakeReady(p2);
    var p3 := TakePeriodic(p2);
    ReadyBests(p1);
    ReadyBests(p3);
    UpdateReady(p3, c);
    ReadyBests(UpdateBest(p3, c));
    hide Ready, PushPrevious, TakePeriodic, ArriveRow, Periodics, BestAfter;
    TakenHash(p2);
    var r := UpdateBest(p3, c);
    forall t {:trigger r.aBest[t]} | 0 <= t < p.nCol - 1
      ensures r.aBest[t] == BestAfter(p1.aBest[t], r.current, t, c)
    {
      AnyColumn(p1.aBest[t], p3.current, r.current.iCol, t, c);
    }
  }

  lemma AnyColumn(b: Sample, cur: Sample, iCol: nat, t: nat, c: nat)
    requires |b.anEq| == |cur.anEq|
    ensures BestAfter(b, cur.(iCol := iCol), t, c) == BestAfter(b, cur, t, c)
  {
  }

  lemma ReadyBests(p: Accum)
    requires Ready(p)
    ensures p.nCol > 0 && |p.aBest| == p.nCol && AllShaped(p.aBest, p.nCol) && ShapedSample(p.current, p.nCol)
    ensures Shaped(p)
  {
  }

  lemma TakenHash(p: Accum)
    requires Shaped(p)
    ensures TakePeriodic(p).current.iHash == p.current.iHash
  {
    hide Insert;
  }

  /** One stat_push keeps the candidates the preferred rows of the runs under way. */
  lemma StatPushPrefers(p: Accum, C: seq<nat>, R: seq<int>, c: nat, rowid: int, h0: nat)
    requires Inv(p, C, R) && c < p.nCol && Periodics(p.a) + 1 < p.mxSample && C != []
    requires CandidatesOk(p, C, h0)
    ensures Ready(p) && CandidatesOk(StatPush(p, c, rowid), C + [c], h0)
  {
    InvFacts(p, C, R);
    PushedBests(p, c, rowid);
    StatPushKeeps(p, C, R, c, rowid);
    var r, p1 := StatPush(p, c, rowid), PushPrevious(p, c);
    InvCurrent(r, C + [c], R + [rowid]);
    HashNext(h0, |C|);
    hide *;
    forall t {:trigger r.aBest[t]} | 0 <= t < p.nCol - 1
      ensures Preferred(r.aBest[t], C + [c], h0, t, p.nCol)
    {
      OneBest(p, p1.aBest[t], r.aBest[t], r.current, C, R + [rowid], c, h0, t);
    }
    CandidatesTogether(r, C + [c], h0);
  }

  lemma HashNext(h0: nat, n: nat)
    ensures HashAt(h0, n + 1) == NextHash(HashAt(h0, n))
  {
  }

  lemma CandidatesTogether(p: Accum, C: seq<nat>, h0: nat)
    requires |p.aBest| == p.nCol && p.iPrn == HashAt(h0, |C|) && p.current.iHash == HashAt(h0, |C|)
    requires forall t {:trigger p.aBest[t]} :: 0 <= t < p.nCol - 1 ==> Preferred(p.aBest[t], C, h0, t, p.nCol)
    ensures CandidatesOk(p, C, h0)
  {
  }

  /** The candidate of column t after a push: b is the one before, closed runs aside. */
  lemma OneBest(p: Accum, b: Sample, s: Sample, cur: Sample, C: seq<nat>, R: seq<int>, c: nat, h0: nat, t: nat)
    requires Ready(p) && C != [] && CandidatesOk(p, C, h0) && t < p.nCol - 1 && c < p.nCol
    requires t < |PushPrevious(p, c).aBest| && b == PushPrevious(p, c).aBest[t]
    requires IsCurrent(cur, C + [c], R, p.nCol) && cur.iHash == HashAt(h0, |C| + 1)
    requires |b.anEq| == |cur.anEq| && s == BestAfter(b, cur, t, c)
    ensures Preferred(s, C + [c], h0, t, p.nCol)
  {
    hide IsCurrent, Preferred, Ready, PushPrevious, HashAt, BestAfter;
    if t < c {
      PushPreviousSpares(p, c, t);
      ContinuesRun(b, cur, C, R, c, h0, t, p.nCol);
    } else {
      NewRun(C, c, t);
      StartsRun(cur, C + [c], R, h0, t, p.nCol);
      TakesOver(b, cur, t, c);
    }
  }

  lemma TakesOver(b: Sample, cur: Sample, t: nat, c: nat)
    requires t >= c && |b.anEq| == |cur.anEq|
    ensures BestAfter(b, cur, t, c) == cur.(iCol := t)
  {
  }

  lemma NewRun(C: seq<nat>, c: nat, t: nat)
    requires c <= t
    ensures Start(C + [c], |C|, t) == |C|
  {
  }

  lemma InvCurrent(p: Accum, C: seq<nat>, R: seq<int>)
    requires Inv(p, C, R)
    ensures IsCurrent(p.current, C, R, p.nCol)
  {
  }

  // ---------------------------------------------------------------- whole runs

  /** After the first row every candidate is that row. */
  lemma FirstPrefers(p: Accum, nTotal: nat, rowid: int)
    requires Fresh(p, nTotal) && Periodics(p.a) + 1 < p.mxSample
    ensures CandidatesOk(StatPush(p, 0, rowid), [0], p.iPrn)
  {
    PushedBests(p, 0, rowid);
    FirstPush(p, nTotal, rowid);
    var r := StatPush(p, 0, rowid);
    InvCurrent(r, [0], [rowid]);
    assert HashAt(p.iPrn, 1) == NextHash(HashAt(p.iPrn, 0)) == NextHash(p.iPrn);
    hide Inv, StatPush, BestAfter, Preferred, IsCurrent, Ready, Periodics, HashAt;
    forall t {:trigger r.aBest[t]} | 0 <= t < p.nCol - 1
      ensures Preferred(r.aBest[t], [0], p.iPrn, t, p.nCol)
    {
      StartsRun(r.current, [0], [rowid], p.iPrn, t, p.nCol);
      TakesOver(p.aBest[t], r.current, t, 0);
    }
  }

  /** Whatever rows have been pushed, the candidate of each column but the last is a row of the run under
      way that no other row of the run is preferred to. */
  lemma {:induction false} CandidatesPreferred(p0: Accum, C: seq<nat>, R: seq<int>, nTotal: nat)
    requires Told(p0, C, R, nTotal) && C != []
    ensures CandidatesOk(Pushed(p0, C, R, nTotal), C, p0.iPrn)
    decreases |C|
  {
    hide Inv, Ready, Changes, StatPush, CandidatesOk, Told;
    var n := |C| - 1;
    ToldPrefix(p0, C, R, nTotal);
    ToldFacts(p0, C, R, nTotal);
    var q := Pushed(p0, C[..n], R[..n], nTotal);
    PushedStep(p0, q, C[..n], R[..n], C[n], R[n], nTotal);
    assert C[..n] + [C[n]] == C && R[..n] + [R[n]] == R;
    if n == 0 {
      FirstPrefers(q, nTotal, R[0]);
      assert C == [0];
    } else {
      CandidatesPreferred(p0, C[..n], R[..n], nTotal);
      StatPushPrefers(q, C[..n], R[..n], C[n], R[n], p0.iPrn);
    }
  }

  lemma ToldFacts(p0: Accum, C: seq<nat>, R: seq<int>, nTotal: nat)
    requires Told(p0, C, R, nTotal)
    ensures |R| == |C| <= nTotal && p0.nPSample > 0 && Fresh(p0, nTotal)
  {
  }

  /** So when a run ends, the row offered for it is a preferred one of its rows, with the length of the
      run filled in. */
  lemma OfferedIsPreferred(p0: Accum, C: seq<nat>, R: seq<int>, nTotal: nat, t: nat, k: nat)
    requires Told(p0, C, R, nTotal) && C != [] && t < p0.nCol - 1 && Start(C, |C| - 1, t) <= k < |C|
    ensures
      var p := Pushed(p0, C, R, nTotal);
      && Shaped(p) && p.nCol == p0.nCol
      && var s := Candidate(p, t);
         && |s.anLt| > 0 && Start(C, |C| - 1, t) <= Row(s) < |C| && s.anEq[t] == |C| - Start(C, |C| - 1, t)
         && SameRight(s, AsSeen(C, p0.iPrn, Row(s), t, p0.nCol), t)
         && !Greater(AsSeen(C, p0.iPrn, k, t, p0.nCol), s, t + 1)
  {
    CandidatesPreferred(p0, C, R, nTotal);
    var p := Pushed(p0, C, R, nTotal);
    hide Told, Pushed;
    InvFacts(p, C, R);
    InvCurrent(p, C, R);
    hide Inv, Ready, Fresh;
    CompletedPreferred(p, C, R, p0.iPrn, t, k);
  }

  lemma CompletedPreferred(p: Accum, C: seq<nat>, R: seq<int>, h0: nat, t: nat, k: nat)
    requires Shaped(p) && C != [] && CandidatesOk(p, C, h0) && IsCurrent(p.current, C, R, p.nCol)
    requires t < p.nCol - 1 && Start(C, |C| - 1, t) <= k < |C|
    ensures
      var s := Candidate(p, t);
      && |s.anLt| > 0 && Start(C, |C| - 1, t) <= Row(s) < |C| && s.anEq[t] == |C| - Start(C, |C| - 1, t)
      && SameRight(s, AsSeen(C, h0, Row(s), t, p.nCol), t)
      && !Greater(AsSeen(C, h0, k, t, p.nCol), s, t + 1)
  {
    ReadyCandidates(p);
    hide *;
    var b, s := p.aBest[t], Candidate(p, t);
    CurrentCount(p.current, C, R, p.nCol, t);
    CandidateAt(p, C, h0, t, k);
    CandidateRight(p, t);
    SameBeaten(AsSeen(C, h0, k, t, p.nCol), b, s, AsSeen(C, h0, Row(b), t, p.nCol), t);
  }

  lemma ReadyCandidates(p: Accum)
    requires Shaped(p)
    ensures |p.aBest| == p.nCol
  {
  }

  lemma CandidateAt(p: Accum, C: seq<nat>, h0: nat, t: nat, k: nat)
    requires C != [] && CandidatesOk(p, C, h0) && t < p.nCol - 1 && Start(C, |C| - 1, t) <= k < |C|
    ensures |p.aBest| == p.nCol
    ensures
      var b := p.aBest[t];
      && |b.anEq| == p.nCol && |b.anLt| > 0 && Start(C, |C| - 1, t) <= Row(b) < |C|
      && SameRight(b, AsSeen(C, h0, Row(b), t, p.nCol), t) && !IsBetterPost(AsSeen(C, h0, k, t, p.nCol), b)
  {
    assert Preferred(p.aBest[t], C, h0, t, p.nCol);
    hide IsBetterPost, AsSeen, SameRight, HashAt, Start;
  }

  lemma SameBeaten(x: Sample, b: Sample, s: Sample, own: Sample, t: nat)
    requires |x.anEq| == |b.anEq| == |s.anEq| && x.iCol == t && b.iHash == s.iHash
    requires forall j :: t < j < |b.anEq| ==> s.anEq[j] == b.anEq[j]
    requires !IsBetterPost(x, b) && SameRight(b, own, t)
    ensures !Greater(x, s, t + 1) && SameRight(s, own, t)
  {
    SameFrom(x, b, x, s, t + 1);
    BetterFromMeans(x, s, t + 1);
    hide Greater, BetterFrom;
  }

  lemma CurrentCount(cur: Sample, C: seq<nat>, R: seq<int>, nCol: nat, t: nat)
    requires IsCurrent(cur, C, R, nCol) && t < nCol && C != []
    ensures |cur.anEq| == nCol && cur.anEq[t] == |C| - Start(C, |C| - 1, t)
  {
  }

  lemma CandidateRight(p: Accum, t: nat)
    requires Shaped(p) && t < p.nCol
    ensures
      var s, b := Candidate(p, t), p.aBest[t];
      && s.anLt == b.anLt && |s.anEq| == |b.anEq| && s.iHash == b.iHash && s.anEq[t] == p.current.anEq[t]
      && (forall j :: t < j < |b.anEq| ==> s.anEq[j] == b.anEq[j])
      && (|s.anLt| > 0 ==> Row(s) == Row(b))
  {
  }
}
