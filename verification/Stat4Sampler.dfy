/** What each routine of the STAT4 sampler computes, as functions on values, and the order in
    which samples are preferred. */
module Stat4Sampler {
  import opened Integers

  /** One retained or candidate row with its per-prefix counters. */
  datatype Sample = Sample(
    anEq: seq<nat>,   // rows equal to this prefix; 0 while the run is still open
    anDLt: seq<nat>,  // distinct prefixes below
    anLt: seq<nat>,   // rows below
    iRowid: int,
    isPSample: bool,
    iCol: nat,
    iHash: nat)

  datatype Accum = Accum(
    nRow: nat, nPSample: nat, nCol: nat, nKeyCol: nat, mxSample: nat,
    current: Sample, iPrn: nat, aBest: seq<Sample>,
    iMin: int, nMaxEqZero: nat, iGet: int,
    a: seq<Sample>)   // the nSample retained samples

  predicate ShapedSample(s: Sample, nCol: nat) {
    |s.anEq| == |s.anDLt| == |s.anLt| == nCol && s.iCol < nCol
  }

  predicate AllShaped(a: seq<Sample>, nCol: nat) {
    forall k {:trigger a[k]} :: 0 <= k < |a| ==> ShapedSample(a[k], nCol)
  }

  predicate Shaped(p: Accum) {
    && 0 < p.nKeyCol <= p.nCol && p.nPSample > 0 && p.mxSample > 0
    && ShapedSample(p.current, p.nCol)
    && |p.aBest| == p.nCol && AllShaped(p.aBest, p.nCol)
    && |p.a| <= p.mxSample && AllShaped(p.a, p.nCol)
    && (|p.a| == p.mxSample ==> 0 <= p.iMin < |p.a|)
  }

  // ---------------------------------------------------------------- preference

  /** Among samples of one column: later counts decide, then the hash. */
  predicate BetterFrom(x: Sample, y: Sample, i: nat)
    requires |x.anEq| == |y.anEq|
    decreases |x.anEq| - i
  {
    if i >= |x.anEq| then x.iHash > y.iHash
    else if x.anEq[i] > y.anEq[i] then true
    else if x.anEq[i] < y.anEq[i] then false
    else BetterFrom(x, y, i + 1)
  }

  predicate IsBetterPost(x: Sample, y: Sample)
    requires |x.anEq| == |y.anEq|
  {
    BetterFrom(x, y, x.iCol + 1)
  }

  predicate IsBetter(x: Sample, y: Sample)
    requires |x.anEq| == |y.anEq| && x.iCol < |x.anEq| && y.iCol < |y.anEq|
  {
    if x.anEq[x.iCol] > y.anEq[y.iCol] then true
    else if x.anEq[x.iCol] == y.anEq[y.iCol] then x.iCol < y.iCol || (x.iCol == y.iCol && IsBetterPost(x, y))
    else false
  }

  lemma {:induction false} BetterFromOrder(x: Sample, y: Sample, z: Sample, i: nat)
    requires |x.anEq| == |y.anEq| == |z.anEq|
    ensures BetterFrom(x, y, i) ==> !BetterFrom(y, x, i)
    ensures BetterFrom(x, z, i) ==> BetterFrom(x, y, i) || BetterFrom(y, z, i)
    decreases |x.anEq| - i
  {
    if i < |x.anEq| { BetterFromOrder(x, y, z, i + 1); }
  }

  /** Preference is asymmetric, and whatever loses to x also loses to something between. */
  lemma PreferenceOrder(x: Sample, y: Sample, z: Sample, nCol: nat)
    requires ShapedSample(x, nCol) && ShapedSample(y, nCol) && ShapedSample(z, nCol)
    ensures IsBetter(x, y) ==> !IsBetter(y, x)
    ensures IsBetter(x, z) ==> IsBetter(x, y) || IsBetter(y, z)
  {
    BetterFromOrder(x, y, z, x.iCol + 1);
  }

  // ---------------------------------------------------------------- sampleInsert

  /** Outcome of looking for a retained sample that shares the new sample's prefix:
      a periodic one blocks, otherwise the index of the most preferred, or -1. */
  datatype Sharer = Blocked | Found(up: int)

  /** The scan goes from sample i-1 down to sample 0; up is the best sharer met so far. */
  function FindSharer(a: seq<Sample>, nCol: nat, c: nat, i: nat, up: int): (r: Sharer)
    requires c < nCol && i <= |a| && -1 <= up < |a| && AllShaped(a, nCol)
    ensures r.Found? ==> -1 <= r.up < |a|
  {
    if i == 0 then Found(up)
    else if a[i - 1].anEq[c] == 0 then
      if a[i - 1].isPSample then Blocked
      else FindSharer(a, nCol, c, i - 1, if up < 0 || IsBetter(a[i - 1], a[up]) then i - 1 else up)
    else FindSharer(a, nCol, c, i - 1, up)
  }

  /** The least preferred non-periodic sample from index i on, starting from candidate iMin. */
  function FindMin(a: seq<Sample>, nCol: nat, i: nat, iMin: int): (r: int)
    requires i <= |a| && -1 <= iMin < |a| && AllShaped(a, nCol)
    ensures -1 <= r < |a|
    decreases |a| - i
  {
    if i == |a| then iMin
    else if a[i].isPSample then FindMin(a, nCol, i + 1, iMin)
    else FindMin(a, nCol, i + 1, if iMin < 0 || IsBetter(a[iMin], a[i]) then i else iMin)
  }

  /** The least preferred sample has to be known whenever the array is full. */
  predicate HasMin(a: seq<Sample>) {
    exists i :: 0 <= i < |a| && !a[i].isPSample
  }

  lemma {:induction false} FindMinFinds(a: seq<Sample>, nCol: nat, i: nat, iMin: int)
    requires i <= |a| && -1 <= iMin < |a| && AllShaped(a, nCol)
    requires iMin >= 0 ==> !a[iMin].isPSample && forall k :: 0 <= k < i && !a[k].isPSample ==> !IsBetter(a[iMin], a[k])
    requires iMin < 0 ==> forall k :: 0 <= k < i ==> a[k].isPSample
    ensures var r := FindMin(a, nCol, i, iMin);
      && (r >= 0 <==> HasMin(a))
      && (r >= 0 ==> !a[r].isPSample && forall k :: 0 <= k < |a| && !a[k].isPSample ==> !IsBetter(a[r], a[k]))
    decreases |a| - i
  {
    if i < |a| {
      if a[i].isPSample {
        FindMinFinds(a, nCol, i + 1, iMin);
      } else {
        var m := if iMin < 0 || IsBetter(a[iMin], a[i]) then i else iMin;
        forall k | 0 <= k <= i && !a[k].isPSample
          ensures !IsBetter(a[m], a[k])
        {
          PreferenceOrder(a[m], a[k], a[k], nCol);
          if iMin >= 0 && m == i && k < i {
            PreferenceOrder(a[iMin], a[i], a[k], nCol);
            PreferenceOrder(a[i], a[iMin], a[k], nCol);
          }
        }
        FindMinFinds(a, nCol, i + 1, m);
      }
    }
  }

  lemma {:induction false} FindSharerFinds(a: seq<Sample>, nCol: nat, c: nat, i: nat, up: int)
    requires c < nCol && i <= |a| && -1 <= up < |a| && AllShaped(a, nCol)
    requires forall k :: i <= k < |a| && a[k].anEq[c] == 0 ==> !a[k].isPSample && up >= 0 && !IsBetter(a[k], a[up])
    requires up >= 0 ==> a[up].anEq[c] == 0 && !a[up].isPSample
    ensures var r := FindSharer(a, nCol, c, i, up);
      && (r.Blocked? <==> exists k :: 0 <= k < |a| && a[k].isPSample && a[k].anEq[c] == 0)
      && (r.Found? ==>
           && (r.up >= 0 <==> exists k :: 0 <= k < |a| && a[k].anEq[c] == 0)
           && (r.up >= 0 ==> a[r.up].anEq[c] == 0 && !a[r.up].isPSample)
           && forall k :: 0 <= k < |a| && a[k].anEq[c] == 0 ==> !IsBetter(a[k], a[r.up]))
  {
    if i > 0 {
      if a[i - 1].anEq[c] == 0 {
        if !a[i - 1].isPSample {
          var u := if up < 0 || IsBetter(a[i - 1], a[up]) then i - 1 else up;
          forall k | i - 1 <= k < |a| && a[k].anEq[c] == 0
            ensures !IsBetter(a[k], a[u])
          {
            PreferenceOrder(a[u], a[k], a[k], nCol);
            if up >= 0 && u == i - 1 && k >= i {
              PreferenceOrder(a[k], a[up], a[u], nCol);
              PreferenceOrder(a[u], a[up], a[up], nCol);
              PreferenceOrder(a[u], a[k], a[up], nCol);
              PreferenceOrder(a[k], a[u], a[up], nCol);
            }
          }
          FindSharerFinds(a, nCol, c, i - 1, u);
        }
      } else {
        FindSharerFinds(a, nCol, c, i - 1, up);
      }
    }
  }

  function Max(x: nat, y: nat): nat {
    if x > y then x else y
  }

  function Without(a: seq<Sample>, i: nat): (r: seq<Sample>)
    requires i < |a|
    ensures |r| == |a| - 1
    ensures forall k {:trigger r[k]} :: 0 <= k < |r| ==> r[k] == a[if k < i then k else k + 1]
  {
    a[..i] + a[i + 1..]
  }

  /** The first n counters are zeroed: those runs are still open. */
  function ZeroFirst(s: Sample, n: nat): (r: Sample)
    requires n <= |s.anEq|
    ensures r == s.(anEq := r.anEq) && |r.anEq| == |s.anEq|
    ensures forall j :: 0 <= j < |r.anEq| ==> r.anEq[j] == if j < n then 0 else s.anEq[j]
  {
    s.(anEq := seq(|s.anEq|, j requires 0 <= j < |s.anEq| => if j < n then 0 else s.anEq[j]))
  }

  /** find_new_min: the least preferred sample is recomputed once the array is full. */
  function NewMin(p: Accum): (r: Accum)
    requires AllShaped(p.a, p.nCol)
    ensures r == p.(iMin := r.iMin)
  {
    if |p.a| >= p.mxSample then p.(iMin := FindMin(p.a, p.nCol, 0, -1)) else p
  }

  function Upgraded(p: Accum, s: Sample, up: nat): (r: Accum)
    requires Shaped(p) && ShapedSample(s, p.nCol) && up < |p.a|
    ensures AllShaped(r.a, p.nCol) && |r.a| == |p.a|
  {
    var u := p.a[up].(iCol := s.iCol, anEq := p.a[up].anEq[s.iCol := s.anEq[s.iCol]]);
    NewMin(p.(a := p.a[up := u]))
  }

  /** Makes room by dropping sample iMin when the array is full, then adds the sample at the end. */
  function Appended(p: Accum, s: Sample, nEqZero: nat): (r: Accum)
    requires Shaped(p) && ShapedSample(s, p.nCol) && nEqZero <= p.nCol
    ensures AllShaped(r.a, p.nCol) && 0 < |r.a| <= p.mxSample
  {
    var kept := if |p.a| >= p.mxSample then Without(p.a, p.iMin) else p.a;
    NewMin(p.(a := kept + [ZeroFirst(s, nEqZero)]))
  }

  function Insert(p: Accum, s: Sample, nEqZero: nat): (r: Accum)
    requires Shaped(p) && ShapedSample(s, p.nCol) && nEqZero <= p.nCol
    ensures AllShaped(r.a, p.nCol) && |r.a| <= p.mxSample
    ensures r == p.(a := r.a, iMin := r.iMin, nMaxEqZero := r.nMaxEqZero)
  {
    var p1 := p.(nMaxEqZero := Max(p.nMaxEqZero, nEqZero));
    if s.isPSample then Appended(p1, s, nEqZero)
    else match FindSharer(p.a, p.nCol, s.iCol, |p.a|, -1)
      case Blocked => p1
      case Found(up) => if up >= 0 then Upgraded(p1, s, up) else Appended(p1, s, nEqZero)
  }

  // ---------------------------------------------------------------- samplePushPrevious

  /** The candidate of column i, completed with the count of the run that ends now. */
  function Candidate(p: Accum, i: nat): (s: Sample)
    requires Shaped(p) && i < p.nCol
    ensures ShapedSample(s, p.nCol)
  {
    p.aBest[i].(anEq := p.aBest[i].anEq[i := p.current.anEq[i]])
  }

  /** One turn of the loop over aBest. */
  function PushOne(p: Accum, i: nat): (r: Accum)
    requires Shaped(p) && i < p.nCol
    ensures AllShaped(r.a, p.nCol) && |r.a| <= p.mxSample
    ensures r == p.(aBest := r.aBest, a := r.a, iMin := r.iMin, nMaxEqZero := r.nMaxEqZero)
    ensures r.aBest == p.aBest[i := Candidate(p, i)]
  {
    var s := Candidate(p, i);
    var p1 := p.(aBest := p.aBest[i := s]);
    if |p.a| < p.mxSample || IsBetter(s, p.a[p.iMin]) then Insert(p1, s, i) else p1
  }

  /** The counters of finished runs (columns iChng and up) are filled in. */
  function Filled(s: Sample, cur: Sample, iChng: nat): (r: Sample)
    requires |s.anEq| == |cur.anEq|
    ensures r == s.(anEq := r.anEq) && |r.anEq| == |s.anEq|
    ensures forall j :: 0 <= j < |s.anEq| ==>
      r.anEq[j] == if j >= iChng && s.anEq[j] == 0 then cur.anEq[j] else s.anEq[j]
  {
    s.(anEq := seq(|s.anEq|, j requires 0 <= j < |s.anEq| =>
      if j >= iChng && s.anEq[j] == 0 then cur.anEq[j] else s.anEq[j]))
  }

  function FillAll(p: Accum, iChng: nat): (r: Accum)
    requires Shaped(p)
    ensures Shaped(r) && |r.a| == |p.a|
    ensures r == p.(a := r.a, nMaxEqZero := r.nMaxEqZero)
  {
    if iChng < p.nMaxEqZero then
      p.(a := seq(|p.a|, k requires 0 <= k < |p.a| => Filled(p.a[k], p.current, iChng)), nMaxEqZero := iChng)
    else p
  }

  // ---------------------------------------------------------------- statPush

  /** The counters of the current row, given those of the previous one. */
  function Advanced(cur: Sample, iChng: nat): (r: Sample)
    requires |cur.anEq| == |cur.anDLt| == |cur.anLt|
    ensures r == cur.(anEq := r.anEq, anDLt := r.anDLt, anLt := r.anLt)
    ensures |r.anEq| == |r.anDLt| == |r.anLt| == |cur.anEq|
    ensures forall j :: 0 <= j < |cur.anEq| ==>
      && r.anEq[j] == (if j < iChng then cur.anEq[j] + 1 else 1)
      && r.anDLt[j] == (if j < iChng then cur.anDLt[j] else cur.anDLt[j] + 1)
      && r.anLt[j] == (if j < iChng then cur.anLt[j] else cur.anLt[j] + cur.anEq[j])
  {
    var n := |cur.anEq|;
    cur.(anEq := seq(n, j requires 0 <= j < n => if j < iChng then cur.anEq[j] + 1 else 1),
         anDLt := seq(n, j requires 0 <= j < n => if j < iChng then cur.anDLt[j] else cur.anDLt[j] + 1),
         anLt := seq(n, j requires 0 <= j < n => if j < iChng then cur.anLt[j] else cur.anLt[j] + cur.anEq[j]))
  }

  /** The first row starts every run. */
  function FirstRow(cur: Sample): (r: Sample)
    ensures r == cur.(anEq := r.anEq) && |r.anEq| == |cur.anEq|
    ensures forall j :: 0 <= j < |cur.anEq| ==> r.anEq[j] == 1
  {
    cur.(anEq := seq(|cur.anEq|, _ => 1))
  }

  function NextHash(iPrn: nat): (r: nat)
    ensures r < U32_LIMIT
  {
    (iPrn * 1103515245 + 12345) % U32_LIMIT
  }

  predicate IsPeriodic(nLt: nat, nPSample: nat)
    requires nPSample > 0
  {
    nLt / nPSample != (nLt + 1) / nPSample
  }

  /** Candidate of column i after the current row has been compared with it. */
  function BestAfter(best: Sample, cur: Sample, i: nat, iChng: nat): (r: Sample)
    requires |best.anEq| == |cur.anEq|
  {
    if i >= iChng || IsBetterPost(cur.(iCol := i), best) then cur.(iCol := i) else best
  }

  function ArriveRow(p: Accum, iChng: nat, rowid: int): (r: Accum)
    requires Shaped(p)
    ensures Shaped(r)
    ensures r == p.(current := r.current, iPrn := r.iPrn, nRow := p.nRow + 1)
  {
    var cur := if p.nRow == 0 then FirstRow(p.current) else Advanced(p.current, iChng);
    var h := NextHash(p.iPrn);
    p.(current := cur.(iRowid := rowid, iHash := h), iPrn := h, nRow := p.nRow + 1)
  }

  /** A periodic sample is taken every nPSample rows. */
  function TakePeriodic(p: Accum): (r: Accum)
    requires Shaped(p)
    ensures AllShaped(r.a, p.nCol) && |r.a| <= p.mxSample
    ensures r == p.(a := r.a, iMin := r.iMin, nMaxEqZero := r.nMaxEqZero, current := r.current)
    ensures ShapedSample(r.current, p.nCol)
  {
    if IsPeriodic(p.current.anLt[p.nCol - 1], p.nPSample) then
      var s := p.current.(isPSample := true, iCol := 0);
      Insert(p, s, p.nCol - 1).(current := s.(isPSample := false))
    else p
  }

  function UpdateBest(p: Accum, iChng: nat): (r: Accum)
    requires ShapedSample(p.current, p.nCol) && |p.aBest| == p.nCol && AllShaped(p.aBest, p.nCol)
    ensures r == p.(aBest := r.aBest, current := r.current)
    ensures |r.aBest| == p.nCol && r.aBest[p.nCol - 1] == p.aBest[p.nCol - 1]
    ensures forall i :: 0 <= i < p.nCol - 1 ==> r.aBest[i] == BestAfter(p.aBest[i], p.current, i, iChng)
  {
    p.(aBest := seq(p.nCol, i requires 0 <= i < p.nCol =>
                     if i < p.nCol - 1 then BestAfter(p.aBest[i], p.current, i, iChng) else p.aBest[i]),
       current := if p.nCol > 1 then p.current.(iCol := p.nCol - 2) else p.current)
  }

  // ---------------------------------------------------------------- whole calls

  function Periodics(a: seq<Sample>): nat {
    if a == [] then 0 else Periodics(a[..|a| - 1]) + if a[|a| - 1].isPSample then 1 else 0
  }

  lemma {:induction false} PeriodicsBound(a: seq<Sample>)
    ensures Periodics(a) <= |a|
    ensures Periodics(a) < |a| ==> HasMin(a)
  {
    if a != [] {
      var b := a[..|a| - 1];
      PeriodicsBound(b);
      if HasMin(b) {
        var i :| 0 <= i < |b| && !b[i].isPSample;
        assert !a[i].isPSample;
      }
    }
  }

  lemma {:induction false} PeriodicsWithout(a: seq<Sample>, i: nat)
    requires i < |a| && !a[i].isPSample
    ensures Periodics(Without(a, i)) == Periodics(a)
  {
    var w := Without(a, i);
    if i == |a| - 1 {
      assert w == a[..|a| - 1];
    } else {
      PeriodicsWithout(a[..|a| - 1], i);
      assert w[..|w| - 1] == Without(a[..|a| - 1], i);
    }
  }

  lemma {:induction false} PeriodicsSame(a: seq<Sample>, b: seq<Sample>)
    requires |a| == |b| && forall k :: 0 <= k < |a| ==> a[k].isPSample == b[k].isPSample
    ensures Periodics(a) == Periodics(b)
  {
    if a != [] { PeriodicsSame(a[..|a| - 1], b[..|b| - 1]); }
  }

  /** The asserts of sampleInsert that do not mention counters: periodic samples leave room for
      a non-periodic one, and iMin is a non-periodic sample whenever the array is full. */
  predicate Ready(p: Accum) {
    && Shaped(p) && Periodics(p.a) < p.mxSample
    && (|p.a| == p.mxSample ==> !p.a[p.iMin].isPSample)
    && !p.current.isPSample
    && (forall i :: 0 <= i < |p.aBest| ==> !p.aBest[i].isPSample)
  }

  lemma NewMinReady(p: Accum)
    requires AllShaped(p.a, p.nCol) && 0 < |p.a| <= p.mxSample && Periodics(p.a) < p.mxSample
    ensures var r := NewMin(p); |r.a| == p.mxSample ==>
      && 0 <= r.iMin < |r.a| && !r.a[r.iMin].isPSample
      && forall k :: 0 <= k < |r.a| && !r.a[k].isPSample ==> !IsBetter(r.a[r.iMin], r.a[k])
  {
    PeriodicsBound(p.a);
    FindMinFinds(p.a, p.nCol, 0, -1);
  }

  /** The retained samples just before the new one is stored at the end. */
  function Kept(p: Accum): (r: seq<Sample>)
    requires Shaped(p)
    ensures AllShaped(r, p.nCol) && |r| < p.mxSample
  {
    if |p.a| >= p.mxSample then Without(p.a, p.iMin) else p.a
  }

  lemma AppendedReady(p: Accum, s: Sample, nEqZero: nat)
    requires Ready(p) && ShapedSample(s, p.nCol) && nEqZero <= p.nCol
    requires s.isPSample ==> Periodics(p.a) + 1 < p.mxSample
    ensures Ready(Appended(p, s, nEqZero))
    ensures Appended(p, s, nEqZero).a == Kept(p) + [ZeroFirst(s, nEqZero)]
    ensures Periodics(Appended(p, s, nEqZero).a) == Periodics(p.a) + if s.isPSample then 1 else 0
    ensures BestMin(Appended(p, s, nEqZero))
  {
    var b := Kept(p) + [ZeroFirst(s, nEqZero)];
    assert b[..|b| - 1] == Kept(p);
    if |p.a| >= p.mxSample { PeriodicsWithout(p.a, p.iMin); }
    NewMinReady(p.(a := b));
  }

  lemma UpgradedReady(p: Accum, s: Sample, up: nat)
    requires Ready(p) && ShapedSample(s, p.nCol) && up < |p.a|
    ensures Ready(Upgraded(p, s, up)) && Periodics(Upgraded(p, s, up).a) == Periodics(p.a)
    ensures BestMin(Upgraded(p, s, up))
  {
    PeriodicsSame(p.a, Upgraded(p, s, up).a);
    NewMinReady(p.(a := Upgraded(p, s, up).a));
  }

  /** iMin is a least preferred non-periodic sample whenever the array is full. */
  predicate BestMin(p: Accum) {
    && AllShaped(p.a, p.nCol)
    && (|p.a| == p.mxSample ==>
         && 0 <= p.iMin < |p.a| && !p.a[p.iMin].isPSample
         && forall k :: 0 <= k < |p.a| && !p.a[k].isPSample ==> !IsBetter(p.a[p.iMin], p.a[k]))
  }

  lemma InsertReady(p: Accum, s: Sample, nEqZero: nat)
    requires Ready(p) && ShapedSample(s, p.nCol) && nEqZero <= p.nCol
    requires s.isPSample ==> Periodics(p.a) + 1 < p.mxSample
    ensures Ready(Insert(p, s, nEqZero))
    ensures Periodics(Insert(p, s, nEqZero).a) == Periodics(p.a) + if s.isPSample then 1 else 0
    ensures BestMin(p) ==> BestMin(Insert(p, s, nEqZero))
  {
    var p1 := p.(nMaxEqZero := Max(p.nMaxEqZero, nEqZero));
    if s.isPSample {
      AppendedReady(p1, s, nEqZero);
    } else {
      var f := FindSharer(p.a, p.nCol, s.iCol, |p.a|, -1);
      if f.Found? {
        if f.up >= 0 { UpgradedReady(p1, s, f.up); } else { AppendedReady(p1, s, nEqZero); }
      }
    }
  }

  lemma PushOneReady(p: Accum, i: nat)
    requires Ready(p) && i < p.nCol
    ensures Ready(PushOne(p, i)) && Periodics(PushOne(p, i).a) == Periodics(p.a)
    ensures BestMin(p) ==> BestMin(PushOne(p, i))
  {
    InsertReady(p.(aBest := p.aBest[i := Candidate(p, i)]), Candidate(p, i), i);
  }

  /** Columns i, i-1, ..., iChng are offered in this order. */
  function PushBests(p: Accum, i: int, iChng: nat): (r: Accum)
    requires Ready(p) && i < p.nCol
    ensures Ready(r) && Periodics(r.a) == Periodics(p.a)
    ensures r == p.(aBest := r.aBest, a := r.a, iMin := r.iMin, nMaxEqZero := r.nMaxEqZero)
    decreases i + 1
  {
    if i < iChng then p else PushOneReady(p, i); PushBests(PushOne(p, i), i - 1, iChng)
  }

  function PushPrevious(p: Accum, iChng: nat): (r: Accum)
    requires Ready(p)
    ensures Ready(r) && Periodics(r.a) == Periodics(p.a)
    ensures r == p.(aBest := r.aBest, a := r.a, iMin := r.iMin, nMaxEqZero := r.nMaxEqZero)
  {
    var q := PushBests(p, p.nCol - 2, iChng);
    PeriodicsSame(q.a, FillAll(q, iChng).a);
    FillAll(q, iChng)
  }

  lemma ArriveReady(p: Accum, iChng: nat, rowid: int)
    requires Ready(p)
    ensures Ready(ArriveRow(p, iChng, rowid)) && (BestMin(p) ==> BestMin(ArriveRow(p, iChng, rowid)))
  {
  }

  lemma TakeReady(p: Accum)
    requires Ready(p) && Periodics(p.a) + 1 < p.mxSample
    ensures Ready(TakePeriodic(p)) && (BestMin(p) ==> BestMin(TakePeriodic(p)))
    ensures Periodics(TakePeriodic(p).a)
         == Periodics(p.a) + if IsPeriodic(p.current.anLt[p.nCol - 1], p.nPSample) then 1 else 0
  {
    ReadyShape(p);
    hide Ready, BestMin, Insert, Periodics, IsPeriodic;
    if IsPeriodic(p.current.anLt[p.nCol - 1], p.nPSample) {
      var s := p.current.(isPSample := true, iCol := 0);
      InsertReady(p, s, p.nCol - 1);
      ReadyShape(Insert(p, s, p.nCol - 1));
      CurrentReady(Insert(p, s, p.nCol - 1), s.(isPSample := false));
    }
  }

  lemma ReadyShape(p: Accum)
    requires Ready(p)
    ensures Shaped(p) && ShapedSample(p.current, p.nCol) && p.nCol > 0
  {
  }

  lemma CurrentReady(p: Accum, s: Sample)
    requires Ready(p) && ShapedSample(s, p.nCol) && !s.isPSample
    ensures Ready(p.(current := s)) && (BestMin(p) ==> BestMin(p.(current := s)))
  {
  }

  lemma UpdateReady(p: Accum, iChng: nat)
    requires Ready(p)
    ensures Ready(UpdateBest(p, iChng))
  {
    var r := UpdateBest(p, iChng);
    forall i | 0 <= i < |r.aBest|
      ensures ShapedSample(r.aBest[i], p.nCol) && !r.aBest[i].isPSample
    {
      if i == p.nCol - 1 { assert r.aBest[i] == p.aBest[i]; }
    }
  }

  function StatPush(p: Accum, iChng: nat, rowid: int): (r: Accum)
    requires Ready(p) && Periodics(p.a) + 1 < p.mxSample
    ensures Ready(r)
    ensures r.nCol == p.nCol && r.mxSample == p.mxSample && r.nPSample == p.nPSample && r.nKeyCol == p.nKeyCol
  {
    var p1 := if p.nRow == 0 then p else PushPrevious(p, iChng);
    var p2 := ArriveRow(p1, iChng, rowid);
    ArriveReady(p1, iChng, rowid);
    TakeReady(p2);
    UpdateReady(TakePeriodic(p2), iChng);
    UpdateBest(TakePeriodic(p2), iChng)
  }
}
