/** The STAT4 accumulator object: fields and arrays updated in place, each routine proved to
    compute what Stat4Sampler says. */
module Stat4Accum {
  import opened Integers
  import opened Wrappers
  import opened Stat4Sampler
  import opened Stat4Runs
  import opened Stat4Proof

  const SQLITE_STAT4_SAMPLES: nat := 24

  /** Which counters of a sample stat_get is asked for. */
  datatype Counter = NEq | NLt | NDLt

  class Stat4Accum {
    var nRow: nat
    const nPSample: nat
    const nCol: nat
    const nKeyCol: nat
    const mxSample: nat
    var current: Sample
    var iPrn: nat
    const aBest: array<Sample>
    var iMin: int
    var nSample: nat
    var nMaxEqZero: nat
    var iGet: int
    const a: array<Sample>

    /** The object's state as a value. */
    ghost function Abs(): Accum
      requires nSample <= a.Length
      reads this, a, aBest
    {
      Accum(nRow, nPSample, nCol, nKeyCol, mxSample, current, iPrn, aBest[..], iMin, nMaxEqZero, iGet, a[..nSample])
    }

    ghost predicate Valid()
      reads this, a, aBest
    {
      && a != aBest && a.Length == mxSample && nSample <= mxSample
      && Ready(Abs())
    }

    lemma ValidFacts()
      requires Valid()
      ensures nSample <= a.Length && Ready(Abs()) && Abs().nCol == nCol > 0 && Abs().nPSample == nPSample > 0
      ensures Abs().nKeyCol == nKeyCol && Abs().mxSample == mxSample && Abs().nRow == nRow
      ensures Abs().current == current && ShapedSample(current, nCol)
    {
    }

    /** stat_init: no rows, no samples, candidate i watching column i. */
    constructor (nCol: nat, nKeyCol: nat, nTotal: nat)
      requires 0 < nKeyCol <= nCol
      ensures Valid() && Fresh(Abs(), nTotal) && fresh(a) && fresh(aBest)
      ensures this.nCol == nCol && this.nKeyCol == nKeyCol && mxSample == SQLITE_STAT4_SAMPLES && iGet < 0
      ensures forall i :: 0 <= i < nCol ==> aBest[i].iCol == i
    {
      var zero := Sample(seq(nCol, _ => 0), seq(nCol, _ => 0), seq(nCol, _ => 0), 0, false, 0, 0);
      this.nCol, this.nKeyCol := nCol, nKeyCol;
      mxSample := SQLITE_STAT4_SAMPLES;
      nPSample := nTotal / (SQLITE_STAT4_SAMPLES / 3 + 1) + 1;
      nRow, nSample, iMin, nMaxEqZero, iGet := 0, 0, 0, 0, -1;
      current := zero;
      iPrn := InitialHash(nCol, nTotal);
      a := new Sample[SQLITE_STAT4_SAMPLES](_ => zero);
      aBest := new Sample[nCol](i => zero.(iCol := if 0 <= i < nCol then i else 0));
      new;
      assert a[..0] == [];
    }

    /** Compares the columns after iCol, then the hashes. */
    method SampleIsBetterPost(pNew: Sample, pOld: Sample) returns (r: bool)
      requires ShapedSample(pNew, nCol) && ShapedSample(pOld, nCol)
      ensures r == IsBetterPost(pNew, pOld)
    {
      for i := pNew.iCol + 1 to nCol
        invariant BetterFrom(pNew, pOld, i) == IsBetterPost(pNew, pOld)
      {
        if pNew.anEq[i] > pOld.anEq[i] {
          return true;
        }
        if pNew.anEq[i] < pOld.anEq[i] {
          return false;
        }
      }
      r := pNew.iHash > pOld.iHash;
    }

    method SampleIsBetter(pNew: Sample, pOld: Sample) returns (r: bool)
      requires ShapedSample(pNew, nCol) && ShapedSample(pOld, nCol)
      ensures r == IsBetter(pNew, pOld)
    {
      var nEqNew, nEqOld := pNew.anEq[pNew.iCol], pOld.anEq[pOld.iCol];
      if nEqNew > nEqOld {
        return true;
      }
      if nEqNew == nEqOld {
        if pNew.iCol < pOld.iCol {
          return true;
        }
        if pNew.iCol == pOld.iCol {
          r := SampleIsBetterPost(pNew, pOld);
          return;
        }
      }
      r := false;
    }

    /** Looks, from the newest sample down, for one that shares the prefix of the new sample. */
    method ScanSharers(c: nat) returns (r: Sharer)
      requires nSample <= a.Length && c < nCol && AllShaped(a[..nSample], nCol)
      ensures r == FindSharer(a[..nSample], nCol, c, nSample, -1)
    {
      ghost var s := a[..nSample];
      var pUpgrade: int, i: nat := -1, nSample;
      while i > 0
        invariant i <= nSample && -1 <= pUpgrade < nSample
        invariant FindSharer(s, nCol, c, i, pUpgrade) == FindSharer(s, nCol, c, nSample, -1)
      {
        i := i - 1;
        assert s[i] == a[i];
        if a[i].anEq[c] == 0 {
          if a[i].isPSample {
            return Blocked;
          }
          var better := pUpgrade < 0;
          if !better {
            assert s[pUpgrade] == a[pUpgrade];
            better := SampleIsBetter(a[i], a[pUpgrade]);
          }
          if better {
            pUpgrade := i;
          }
        }
      }
      r := Found(pUpgrade);
    }

    /** find_new_min */
    method FindNewMin()
      requires nSample <= a.Length == mxSample && AllShaped(a[..nSample], nCol)
      modifies this`iMin
      ensures Abs() == NewMin(old(Abs()))
    {
      if nSample >= mxSample {
        ghost var s := a[..nSample];
        var m, i := -1, 0;
        while i < mxSample
          invariant 0 <= i <= mxSample && -1 <= m < mxSample
          invariant FindMin(s, nCol, i, m) == FindMin(s, nCol, 0, -1)
        {
          assert s[i] == a[i];
          if !a[i].isPSample {
            var worse := m < 0;
            if !worse {
              assert s[m] == a[m];
              worse := SampleIsBetter(a[m], a[i]);
            }
            if worse {
              m := i;
            }
          }
          i := i + 1;
        }
        iMin := m;
      }
    }

    /** Removes sample iMin by moving the later ones down. */
    method EvictMin()
      requires 0 < nSample == mxSample == a.Length && 0 <= iMin < nSample && a != aBest
      modifies a, this`nSample
      ensures nSample == mxSample - 1 && a[..nSample] == Without(old(a[..nSample]), old(iMin))
    {
      forall k | iMin <= k < nSample - 1 {
        a[k] := a[k + 1];
      }
      nSample := mxSample - 1;
    }

    method AppendSample(pNew: Sample, nEqZero: nat)
      requires Valid() && ShapedSample(pNew, nCol) && nEqZero <= nCol
      modifies this`nSample, this`iMin, a
      ensures nSample <= a.Length && Abs() == Appended(old(Abs()), pNew, nEqZero)
    {
      ghost var p := Abs();
      if nSample >= mxSample {
        EvictMin();
      }
      assert a[..nSample] == Kept(p);
      ZeroLast(pNew, nEqZero);
      assert Abs() == p.(a := Kept(p) + [ZeroFirst(pNew, nEqZero)]);
      FindNewMin();
    }

    /** The new sample goes in at the end, with its first counters marked as open. */
    method ZeroLast(pNew: Sample, nEqZero: nat)
      requires nSample < a.Length && a != aBest && ShapedSample(pNew, nCol) && nEqZero <= nCol
      modifies this`nSample, a
      ensures nSample == old(nSample) + 1 && a[..nSample] == old(a[..nSample]) + [ZeroFirst(pNew, nEqZero)]
    {
      ghost var kept := a[..nSample];
      a[nSample] := pNew;
      nSample := nSample + 1;
      assert ZeroFirst(pNew, 0).anEq == pNew.anEq;
      for j := 0 to nEqZero
        modifies a
        invariant forall k :: 0 <= k < nSample - 1 ==> a[k] == kept[k]
        invariant a[nSample - 1] == ZeroFirst(pNew, j)
      {
        a[nSample - 1] := a[nSample - 1].(anEq := a[nSample - 1].anEq[j := 0]);
        assert a[nSample - 1].anEq == ZeroFirst(pNew, j + 1).anEq;
      }
    }

    method UpgradeSample(pNew: Sample, up: nat)
      requires Valid() && ShapedSample(pNew, nCol) && up < nSample
      modifies this`iMin, a
      ensures nSample <= a.Length && Abs() == Upgraded(old(Abs()), pNew, up)
    {
      ghost var s := a[..nSample];
      a[up] := a[up].(iCol := pNew.iCol, anEq := a[up].anEq[pNew.iCol := pNew.anEq[pNew.iCol]]);
      assert a[..nSample] == s[up := a[up]];
      FindNewMin();
    }

    /** sampleInsert */
    method SampleInsert(pNew: Sample, nEqZero: nat)
      requires Valid() && ShapedSample(pNew, nCol) && nEqZero <= nCol
      requires pNew.isPSample ==> Periodics(Abs().a) + 1 < mxSample
      modifies this`nMaxEqZero, this`nSample, this`iMin, a
      ensures Valid() && Abs() == Insert(old(Abs()), pNew, nEqZero)
    {
      ghost var p := Abs();
      InsertReady(p, pNew, nEqZero);
      InsertIs(p, pNew, nEqZero);
      hide Insert, Upgraded, Appended, FindSharer, Periodics, Ready, Shaped, AllShaped;
      if nEqZero > nMaxEqZero {
        nMaxEqZero := nEqZero;
      }
      ghost var p1 := p.(nMaxEqZero := Max(p.nMaxEqZero, nEqZero));
      assert Abs() == p1;
      if !pNew.isPSample {
        var r := ScanSharers(pNew.iCol);
        assert r == FindSharer(p.a, nCol, pNew.iCol, |p.a|, -1);
        if r.Found? {
          if r.up >= 0 {
            UpgradeSample(pNew, r.up);
          } else {
            AppendSample(pNew, nEqZero);
          }
        }
      } else {
        AppendSample(pNew, nEqZero);
      }
    }

    /** One turn of the loop of samplePushPrevious over aBest. */
    method OfferBest(i: nat)
      requires Valid() && i < nCol
      modifies this`nMaxEqZero, this`nSample, this`iMin, a, aBest
      ensures Valid() && Abs() == PushOne(old(Abs()), i)
    {
      ghost var p := Abs();
      PushOneReady(p, i);
      aBest[i] := aBest[i].(anEq := aBest[i].anEq[i := current.anEq[i]]);
      var pBest := aBest[i];
      assert aBest[..] == p.aBest[i := Candidate(p, i)];
      assert Abs() == p.(aBest := p.aBest[i := Candidate(p, i)]);
      var wanted := nSample < mxSample;
      if !wanted {
        assert a[iMin] == a[..nSample][iMin];
        wanted := SampleIsBetter(pBest, a[iMin]);
      }
      if wanted {
        SampleInsert(pBest, i);
      }
    }

    /** Fills in the counters of one sample for the runs that end. */
    method FillSample(k: nat, iChng: nat)
      requires k < nSample <= a.Length && a != aBest && ShapedSample(a[k], nCol) && ShapedSample(current, nCol)
      modifies a
      ensures a[..] == old(a[..])[k := Filled(old(a[k]), current, iChng)]
    {
      ghost var s, all := a[k], a[..];
      var j := iChng;
      while j < nCol
        invariant iChng <= j && a[..] == all[k := a[k]]
        invariant a[k] == s.(anEq := a[k].anEq) && |a[k].anEq| == nCol
        invariant forall m :: 0 <= m < nCol ==>
          a[k].anEq[m] == if iChng <= m < j && s.anEq[m] == 0 then current.anEq[m] else s.anEq[m]
      {
        if a[k].anEq[j] == 0 {
          a[k] := a[k].(anEq := a[k].anEq[j := current.anEq[j]]);
        }
        j := j + 1;
      }
      assert a[k].anEq == Filled(s, current, iChng).anEq;
    }

    method FillZeros(iChng: nat)
      requires Valid()
      modifies this`nMaxEqZero, a
      ensures Valid() && Abs() == FillAll(old(Abs()), iChng)
    {
      ghost var p := Abs();
      if iChng < nMaxEqZero {
        var i := nSample;
        while i > 0
          modifies a
          invariant 0 <= i <= nSample
          invariant forall k :: 0 <= k < i ==> a[k] == p.a[k]
          invariant forall k :: i <= k < nSample ==> a[k] == Filled(p.a[k], current, iChng)
        {
          i := i - 1;
          FillSample(i, iChng);
        }
        nMaxEqZero := iChng;
        assert a[..nSample] == FillAll(p, iChng).a;
        PeriodicsSame(p.a, a[..nSample]);
      }
    }

    /** samplePushPrevious: offer the candidates whose run ends, then fill in the open counters. */
    method SamplePushPrevious(iChng: nat)
      requires Valid()
      modifies this`nMaxEqZero, this`nSample, this`iMin, a, aBest
      ensures Valid() && Abs() == PushPrevious(old(Abs()), iChng)
    {
      hide *;
      ValidFacts();
      ghost var p := Abs();
      PushPreviousIs(p, iChng);
      var i := nCol - 2;
      while i >= iChng
        invariant -1 <= i <= nCol - 2
        invariant nSample <= a.Length && Valid() && Ready(Abs()) && Abs().nCol == nCol
        invariant PushBests(Abs(), i, iChng) == PushBests(p, nCol - 2, iChng)
      {
        PushBestsOn(Abs(), i, iChng);
        OfferBest(i);
        ValidFacts();
        i := i - 1;
      }
      PushBestsOn(Abs(), i, iChng);
      FillZeros(iChng);
    }

    /** The counters of the new row. */
    method AdvanceCurrent(iChng: nat)
      requires ShapedSample(current, nCol)
      modifies this`current
      ensures current == if nRow == 0 then FirstRow(old(current)) else Advanced(old(current), iChng)
    {
      ghost var c := current;
      if nRow == 0 {
        for i := 0 to nCol
          invariant current == c.(anEq := current.anEq) && |current.anEq| == nCol
          invariant forall m :: 0 <= m < i ==> current.anEq[m] == 1
        {
          current := current.(anEq := current.anEq[i := 1]);
        }
        assert current.anEq == FirstRow(c).anEq;
      } else {
        for i := 0 to if iChng < nCol then iChng else nCol
          invariant current == c.(anEq := current.anEq) && |current.anEq| == nCol
          invariant forall m :: 0 <= m < nCol ==> current.anEq[m] == if m < i then c.anEq[m] + 1 else c.anEq[m]
        {
          current := current.(anEq := current.anEq[i := current.anEq[i] + 1]);
        }
        var i := iChng;
        while i < nCol
          invariant iChng <= i
          invariant current == c.(anEq := current.anEq, anDLt := current.anDLt, anLt := current.anLt)
          invariant |current.anEq| == |current.anDLt| == |current.anLt| == nCol
          invariant forall m :: 0 <= m < nCol ==>
            && current.anEq[m] == (if m < iChng then c.anEq[m] + 1 else if m < i then 1 else c.anEq[m])
            && current.anDLt[m] == (if iChng <= m < i then c.anDLt[m] + 1 else c.anDLt[m])
            && current.anLt[m] == (if iChng <= m < i then c.anLt[m] + c.anEq[m] else c.anLt[m])
        {
          current := current.(
            anDLt := current.anDLt[i := current.anDLt[i] + 1],
            anLt := current.anLt[i := current.anLt[i] + current.anEq[i]],
            anEq := current.anEq[i := 1]);
          i := i + 1;
        }
        ghost var r := Advanced(c, iChng);
        assert current.anEq == r.anEq && current.anDLt == r.anDLt && current.anLt == r.anLt;
      }
    }

    /** Takes a periodic sample when the row count crosses a multiple of nPSample. */
    method TakePeriodicSample()
      requires Valid() && Periodics(Abs().a) + 1 < mxSample
      modifies this`current, this`nMaxEqZero, this`nSample, this`iMin, a
      ensures Valid() && Abs() == TakePeriodic(old(Abs()))
    {
      hide *;
      ValidFacts();
      TakeReady(Abs());
      TakePeriodicIs(Abs());
      CurrentShape();
      var nLt := current.anLt[nCol - 1];
      if nLt / nPSample != (nLt + 1) / nPSample {
        InsertPeriodic();
      }
    }

    lemma CurrentShape()
      requires Valid()
      ensures |current.anLt| == nCol > 0
    {
    }

    method InsertPeriodic()
      requires Valid() && Periodics(Abs().a) + 1 < mxSample
      requires var s := current.(isPSample := true, iCol := 0);
        Ready(Insert(Abs(), s, nCol - 1).(current := s.(isPSample := false)))
      modifies this`current, this`nMaxEqZero, this`nSample, this`iMin, a
      ensures Valid()
      ensures var s := old(current).(isPSample := true, iCol := 0);
        Abs() == Insert(old(Abs()), s, nCol - 1).(current := s.(isPSample := false))
    {
      hide Insert, Periodics;
      var pNew := current.(isPSample := true, iCol := 0);
      SampleInsert(pNew, nCol - 1);
      current := pNew.(isPSample := false);
    }

    /** Compares the current row with the candidate of every column but the last. */
    method UpdateCandidates(iChng: nat)
      requires Valid()
      modifies this`current, aBest
      ensures Valid() && Abs() == UpdateBest(old(Abs()), iChng)
    {
      ghost var p := Abs();
      UpdateReady(p, iChng);
      for i := 0 to nCol - 1
        modifies this`current, aBest
        invariant current == p.current.(iCol := if i == 0 then p.current.iCol else i - 1)
        invariant forall t :: i <= t < nCol ==> aBest[t] == p.aBest[t]
        invariant forall t :: 0 <= t < i ==> aBest[t] == BestAfter(p.aBest[t], p.current, t, iChng)
      {
        current := current.(iCol := i);
        var better := i >= iChng;
        if !better {
          better := SampleIsBetterPost(current, aBest[i]);
        }
        if better {
          aBest[i] := current;
        }
      }
      assert aBest[..] == UpdateBest(p, iChng).aBest;
    }

    /** stat_push */
    method StatPush(iChng: nat, rowid: int)
      requires Valid() && Periodics(Abs().a) + 1 < mxSample
      modifies this`nRow, this`current, this`iPrn, this`nMaxEqZero, this`nSample, this`iMin, a, aBest
      ensures Valid() && Abs() == Stat4Sampler.StatPush(old(Abs()), iChng, rowid)
    {
      hide *;
      ValidFacts();
      StatPushIs(Abs(), iChng, rowid);
      if nRow != 0 {
        SamplePushPrevious(iChng);
      }
      ValidFacts();
      Arrive(iChng, rowid);
      TakePeriodicSample();
      UpdateCandidates(iChng);
    }

    /** The new row becomes the current one. */
    method Arrive(iChng: nat, rowid: int)
      requires Valid()
      modifies this`nRow, this`current, this`iPrn
      ensures Valid() && Abs() == ArriveRow(old(Abs()), iChng, rowid)
    {
      ghost var p := Abs();
      ArriveReady(p, iChng, rowid);
      hide Ready, Periodics;
      AdvanceCurrent(iChng);
      nRow := nRow + 1;
      iPrn := NextHash(iPrn);
      current := current.(iRowid := rowid, iHash := iPrn);
      assert Abs() == ArriveRow(p, iChng, rowid);
    }

    /** stat_get for the row key: closes the runs on first use, then names the sample at iGet. */
    method StatGetRowid() returns (r: Option<int>)
      requires Valid()
      modifies this`iGet, this`nMaxEqZero, this`nSample, this`iMin, a, aBest
      ensures Valid()
      ensures old(iGet) < 0 ==> Abs() == PushPrevious(old(Abs()), 0).(iGet := 0)
      ensures old(iGet) >= 0 ==> Abs() == old(Abs())
      ensures r == if iGet < nSample then Some(a[iGet].iRowid) else None
    {
      if iGet < 0 {
        SamplePushPrevious(0);
        iGet := 0;
      }
      r := if iGet < nSample then Some(a[iGet].iRowid) else None;
    }

    /** stat_get for one kind of counter of the sample at iGet; asking for nDLt moves on. */
    method StatGetCounts(eCall: Counter) returns (aCnt: seq<nat>)
      requires Valid() && 0 <= iGet < nSample
      modifies this`iGet
      ensures Valid()
      ensures Abs() == old(Abs()).(iGet := if eCall == NDLt then old(iGet) + 1 else old(iGet))
      ensures eCall == NEq ==> aCnt == a[old(iGet)].anEq
      ensures eCall == NLt ==> aCnt == a[old(iGet)].anLt
      ensures eCall == NDLt ==> aCnt == a[old(iGet)].anDLt
    {
      match eCall {
        case NEq => aCnt := a[iGet].anEq;
        case NLt => aCnt := a[iGet].anLt;
        case NDLt =>
          aCnt := a[iGet].anDLt;
          iGet := iGet + 1;
      }
    }
  }

  /** The cases of an insert. */
  lemma InsertIs(p: Accum, s: Sample, nEqZero: nat)
    requires Ready(p) && ShapedSample(s, p.nCol) && nEqZero <= p.nCol
    ensures
      var p1 := p.(nMaxEqZero := Max(p.nMaxEqZero, nEqZero));
      && Ready(p1) && Shaped(p1) && AllShaped(p.a, p.nCol)
      && Insert(p, s, nEqZero) ==
        if s.isPSample then Appended(p1, s, nEqZero)
        else match FindSharer(p.a, p.nCol, s.iCol, |p.a|, -1)
          case Blocked => p1
          case Found(up) => if up >= 0 then Upgraded(p1, s, up) else Appended(p1, s, nEqZero)
  {
  }

  lemma PushPreviousIs(p: Accum, iChng: nat)
    requires Ready(p)
    ensures p.nCol > 0 && Ready(PushBests(p, p.nCol - 2, iChng))
    ensures PushPrevious(p, iChng) == FillAll(PushBests(p, p.nCol - 2, iChng), iChng)
  {
    hide PushBests, FillAll;
  }

  lemma TakePeriodicIs(p: Accum)
    requires Ready(p)
    ensures p.nCol > 0 && p.nPSample > 0 && |p.current.anLt| == p.nCol
    ensures var nLt := p.current.anLt[p.nCol - 1]; var s := p.current.(isPSample := true, iCol := 0);
      TakePeriodic(p) == if nLt / p.nPSample != (nLt + 1) / p.nPSample
        then Insert(p, s, p.nCol - 1).(current := s.(isPSample := false)) else p
  {
  }

  lemma StatPushIs(p: Accum, iChng: nat, rowid: int)
    requires Ready(p) && Periodics(p.a) + 1 < p.mxSample
    ensures var p1 := if p.nRow == 0 then p else PushPrevious(p, iChng); var p2 := ArriveRow(p1, iChng, rowid);
      && Ready(p1) && Ready(p2) && Periodics(p2.a) + 1 < p2.mxSample && Ready(TakePeriodic(p2)) && p1.nCol == p.nCol
      && Stat4Sampler.StatPush(p, iChng, rowid) == UpdateBest(TakePeriodic(p2), iChng)
  {
    var p1 := if p.nRow == 0 then p else PushPrevious(p, iChng);
    hide PushPrevious, TakePeriodic, UpdateBest, Periodics;
    ArriveReady(p1, iChng, rowid);
    TakeReady(ArriveRow(p1, iChng, rowid));
  }

  /** One turn of the loop over the candidates, or its end. */
  lemma PushBestsOn(p: Accum, i: int, iChng: nat)
    requires Ready(p) && i < p.nCol
    ensures i < iChng ==> PushBests(p, i, iChng) == p
    ensures i >= iChng ==> Ready(PushOne(p, i)) && PushBests(p, i, iChng) == PushBests(PushOne(p, i), i - 1, iChng)
  {
    if i >= iChng {
      PushOneReady(p, i);
    }
  }

  /** Seed of the pseudo-random tie-breaker. */
  function InitialHash(nCol: nat, nTotal: nat): (h: nat) {
    ((0x689e962d * nCol % U32_LIMIT) as bv32 ^ (0xd0944565 * nTotal % U32_LIMIT) as bv32) as nat
  }
}
