/** What the run counters mean for the rows of a sorted index: numbers of equal rows, of rows
    below, and of distinct prefixes below. */
module Stat4Rows {
  import opened Stat4Runs
  import opened Stat4Sampler
  import opened Stat4Proof

  /** Rows a and b agree on their first n columns. */
  predicate EqualOn(a: seq<int>, b: seq<int>, n: nat)
    requires n <= |a| && n <= |b|
  {
    forall i :: 0 <= i < n ==> a[i] == b[i]
  }

  /** The left-most column, among the first n, in which two rows differ; n when there is none. */
  function FirstDiff(a: seq<int>, b: seq<int>, n: nat): (i: nat)
    requires n <= |a| && n <= |b|
    ensures i <= n && EqualOn(a, b, i) && (i < n ==> a[i] != b[i])
  {
    if n == 0 then 0
    else var i := FirstDiff(a, b, n - 1);
      if i < n - 1 || a[n - 1] != b[n - 1] then i else n
  }

  /** Index order on the first n columns. */
  predicate LessOn(a: seq<int>, b: seq<int>, n: nat)
    requires n <= |a| && n <= |b|
  {
    FirstDiff(a, b, n) < n && a[FirstDiff(a, b, n)] < b[FirstDiff(a, b, n)]
  }

  predicate SortedRows(rows: seq<seq<int>>, nCol: nat) {
    && (forall k {:trigger rows[k]} :: 0 <= k < |rows| ==> |rows[k]| == nCol)
    && (forall k {:trigger rows[k]} :: 0 < k < |rows| ==> LessOn(rows[k - 1], rows[k], nCol))
  }

  function ChangeAt(rows: seq<seq<int>>, nCol: nat, k: nat): (c: nat)
    requires SortedRows(rows, nCol) && nCol > 0 && k < |rows|
    ensures c < nCol
  {
    if k == 0 then 0 else FirstDiff(rows[k - 1], rows[k], nCol)
  }

  /** The change columns that the index scan reports for these rows. */
  function ChangesOf(rows: seq<seq<int>>, nCol: nat): (C: seq<nat>)
    requires SortedRows(rows, nCol) && nCol > 0
    ensures |C| == |rows| && Changes(C, nCol)
    ensures forall k :: 0 <= k < |rows| ==> C[k] == ChangeAt(rows, nCol, k)
  {
    seq(|rows|, k requires 0 <= k < |rows| => ChangeAt(rows, nCol, k))
  }

  lemma DiffUnique(a: seq<int>, b: seq<int>, n: nat, i: nat)
    requires i <= n <= |a| && n <= |b| && EqualOn(a, b, i) && (i < n ==> a[i] != b[i])
    ensures FirstDiff(a, b, n) == i
  {
  }

  lemma DiffShorter(a: seq<int>, b: seq<int>, n: nat, m: nat)
    requires m <= n <= |a| && n <= |b|
    ensures FirstDiff(a, b, m) == if FirstDiff(a, b, n) < m then FirstDiff(a, b, n) else m
  {
    DiffUnique(a, b, m, if FirstDiff(a, b, n) < m then FirstDiff(a, b, n) else m);
  }

  lemma LessTrans(a: seq<int>, b: seq<int>, c: seq<int>, n: nat)
    requires n <= |a| && n <= |b| && n <= |c|
    requires LessOn(a, b, n) || EqualOn(a, b, n)
    requires LessOn(b, c, n) || EqualOn(b, c, n)
    ensures LessOn(a, c, n) || EqualOn(a, c, n)
    ensures EqualOn(a, c, n) <==> EqualOn(a, b, n) && EqualOn(b, c, n)
  {
    var x, y := FirstDiff(a, b, n), FirstDiff(b, c, n);
    DiffUnique(a, c, n, if x < y then x else y);
  }

  lemma DiffSym(a: seq<int>, b: seq<int>, n: nat)
    requires n <= |a| && n <= |b|
    ensures FirstDiff(a, b, n) == FirstDiff(b, a, n)
  {
    DiffUnique(b, a, n, FirstDiff(a, b, n));
  }

  /** Below its run a row's prefix is greater, inside the run it is the same. */
  lemma {:induction false} RunMeansPrefix(rows: seq<seq<int>>, nCol: nat, m: nat, k: nat, j: nat)
    requires SortedRows(rows, nCol) && j < nCol && m <= k < |rows|
    ensures var s := Start(ChangesOf(rows, nCol), k, j);
      if s <= m then EqualOn(rows[m], rows[k], j + 1)
      else LessOn(rows[m], rows[k], j + 1) && !EqualOn(rows[m], rows[k], j + 1)
    decreases k
  {
    if m < k {
      var C := ChangesOf(rows, nCol);
      RunMeansPrefix(rows, nCol, m, k - 1, j);
      DiffShorter(rows[k - 1], rows[k], nCol, j + 1);
      LessTrans(rows[m], rows[k - 1], rows[k], j + 1);
    }
  }

  // ---------------------------------------------------------------- declarative counts

  ghost function EqualRows(rows: seq<seq<int>>, k: nat, n: nat): set<nat>
    requires k < |rows| && forall m {:trigger rows[m]} :: 0 <= m < |rows| ==> n <= |rows[m]|
  {
    set m: nat | m < |rows| && EqualOn(rows[m], rows[k], n)
  }

  ghost function RowsBelow(rows: seq<seq<int>>, k: nat, n: nat): set<nat>
    requires k < |rows| && forall m {:trigger rows[m]} :: 0 <= m < |rows| ==> n <= |rows[m]|
  {
    set m: nat | m < |rows| && LessOn(rows[m], rows[k], n)
  }

  ghost function PrefixesBelow(rows: seq<seq<int>>, k: nat, n: nat): set<seq<int>>
    requires k < |rows| && forall m {:trigger rows[m]} :: 0 <= m < |rows| ==> n <= |rows[m]|
  {
    set m: nat | m < |rows| && LessOn(rows[m], rows[k], n) :: rows[m][..n]
  }

  function Range(lo: nat, hi: nat): (s: set<nat>)
    ensures forall m :: m in s <==> lo <= m < hi
    ensures lo <= hi ==> |s| == hi - lo
    decreases hi
  {
    if lo >= hi then {} else Range(lo, hi - 1) + {hi - 1}
  }

  /** Every row is below, in, or above the run of row k. */
  lemma Trichotomy(rows: seq<seq<int>>, nCol: nat, m: nat, k: nat, j: nat)
    requires SortedRows(rows, nCol) && j < nCol && m < |rows| && k < |rows|
    ensures var C := ChangesOf(rows, nCol);
      && (EqualOn(rows[m], rows[k], j + 1) <==> Start(C, k, j) <= m < Next(C, k, j))
      && (LessOn(rows[m], rows[k], j + 1) <==> m < Start(C, k, j))
  {
    var C := ChangesOf(rows, nCol);
    if m <= k {
      RunMeansPrefix(rows, nCol, m, k, j);
      if Start(C, k, j) <= m { DiffUnique(rows[m], rows[k], j + 1, j + 1); }
    } else {
      RunMeansPrefix(rows, nCol, k, m, j);
      SameRun(C, m, k, j);
      NextVersusStart(C, k, m, j);
      if Start(C, m, j) <= k {
        DiffUnique(rows[m], rows[k], j + 1, j + 1);
      } else {
        DiffSym(rows[m], rows[k], j + 1);
      }
    }
  }

  lemma {:induction false} NextVersusStart(C: seq<nat>, k: nat, m: nat, j: nat)
    requires k < m < |C|
    ensures m < Next(C, k, j) <==> Start(C, m, j) <= k
    decreases m - k
  {
    if C[k + 1] <= j {
      StartAbove(C, k + 1, m, j);
    } else if k + 1 < m {
      NextVersusStart(C, k + 1, m, j);
      SameRun(C, m, k + 1, j);
      SameRun(C, m, k, j);
    }
  }

  /** The number of rows with the same prefix, and of rows below it. */
  lemma RunCounts(rows: seq<seq<int>>, nCol: nat, k: nat, j: nat)
    requires SortedRows(rows, nCol) && j < nCol && k < |rows|
    ensures |EqualRows(rows, k, j + 1)| == RunLength(ChangesOf(rows, nCol), k, j)
    ensures |RowsBelow(rows, k, j + 1)| == Start(ChangesOf(rows, nCol), k, j)
  {
    var C := ChangesOf(rows, nCol);
    forall m | 0 <= m < |rows| ensures m in EqualRows(rows, k, j + 1) <==> m in Range(Start(C, k, j), Next(C, k, j)) {
      Trichotomy(rows, nCol, m, k, j);
    }
    forall m | 0 <= m < |rows| ensures m in RowsBelow(rows, k, j + 1) <==> m in Range(0, Start(C, k, j)) {
      Trichotomy(rows, nCol, m, k, j);
    }
    assert EqualRows(rows, k, j + 1) == Range(Start(C, k, j), Next(C, k, j));
    assert RowsBelow(rows, k, j + 1) == Range(0, Start(C, k, j));
  }

  /** The prefixes of the first h rows. */
  ghost function PrefixesUpTo(rows: seq<seq<int>>, h: nat, n: nat): set<seq<int>>
    requires h <= |rows| && forall m {:trigger rows[m]} :: 0 <= m < |rows| ==> n <= |rows[m]|
  {
    if h == 0 then {} else PrefixesUpTo(rows, h - 1, n) + {rows[h - 1][..n]}
  }

  lemma {:induction false} PrefixFound(rows: seq<seq<int>>, h: nat, n: nat)
    requires h <= |rows| && forall m {:trigger rows[m]} :: 0 <= m < |rows| ==> n <= |rows[m]|
    ensures forall x :: x in PrefixesUpTo(rows, h, n) <==> exists m :: 0 <= m < h && rows[m][..n] == x
  {
    if h > 0 { PrefixFound(rows, h - 1, n); }
  }

  lemma SamePrefix(a: seq<int>, b: seq<int>, n: nat)
    requires n <= |a| && n <= |b|
    ensures EqualOn(a, b, n) <==> a[..n] == b[..n]
  {
    if a[..n] == b[..n] {
      forall i | 0 <= i < n ensures a[i] == b[i] { assert a[..n][i] == b[..n][i]; }
    }
  }

  lemma {:induction false} PrefixCount(rows: seq<seq<int>>, nCol: nat, k: nat, j: nat)
    requires SortedRows(rows, nCol) && j < nCol && k < |rows|
    ensures var C := ChangesOf(rows, nCol);
      && |PrefixesUpTo(rows, Start(C, k, j), j + 1)| == RunsBefore(C, k, j)
      && |PrefixesUpTo(rows, k + 1, j + 1)| == RunsBefore(C, k, j) + 1
      && PrefixesUpTo(rows, k + 1, j + 1) == PrefixesUpTo(rows, Start(C, k, j), j + 1) + {rows[k][..j + 1]}
  {
    hide *;
    var C, n := ChangesOf(rows, nCol), j + 1;
    RunStep(rows, nCol, k, j);
    NewPrefix(rows, nCol, k, j);
    OneMorePrefix(rows, k, n);
    if k > 0 {
      PrefixCount(rows, nCol, k - 1, j);
      if C[k] > j {
        SamePrefixInRun(rows, nCol, k, j);
        AddTwice(PrefixesUpTo(rows, Start(C, k, j), n), rows[k][..n]);
      } else {
        AddNew(PrefixesUpTo(rows, k, n), rows[k][..n]);
      }
    } else {
      AddNew(PrefixesUpTo(rows, k, n), rows[k][..n]);
    }
  }

  lemma AddTwice<T>(s: set<T>, x: T)
    ensures s + {x} + {x} == s + {x}
  {
  }

  lemma AddNew<T>(s: set<T>, x: T)
    requires x !in s
    ensures |s + {x}| == |s| + 1
  {
  }

  /** A row continues the run of the row before or starts one. */
  lemma RunStep(rows: seq<seq<int>>, nCol: nat, k: nat, j: nat)
    requires SortedRows(rows, nCol) && j < nCol && k < |rows|
    ensures var C := ChangesOf(rows, nCol);
      && |C| == |rows| && (forall m {:trigger rows[m]} :: 0 <= m < |rows| ==> j + 1 <= |rows[m]|)
      && (k == 0 ==> Start(C, k, j) == 0 && RunsBefore(C, k, j) == 0)
      && (k > 0 && C[k] > j ==>
           Start(C, k, j) == Start(C, k - 1, j) <= k - 1 && RunsBefore(C, k, j) == RunsBefore(C, k - 1, j))
      && (k > 0 && C[k] <= j ==> Start(C, k, j) == k && RunsBefore(C, k, j) == RunsBefore(C, k - 1, j) + 1)
  {
  }

  lemma OneMorePrefix(rows: seq<seq<int>>, k: nat, n: nat)
    requires k < |rows| && forall m {:trigger rows[m]} :: 0 <= m < |rows| ==> n <= |rows[m]|
    ensures PrefixesUpTo(rows, k + 1, n) == PrefixesUpTo(rows, k, n) + {rows[k][..n]} && PrefixesUpTo(rows, 0, n) == {}
  {
  }

  lemma SamePrefixInRun(rows: seq<seq<int>>, nCol: nat, k: nat, j: nat)
    requires SortedRows(rows, nCol) && j < nCol && 0 < k < |rows| && Start(ChangesOf(rows, nCol), k, j) <= k - 1
    ensures rows[k][..j + 1] == rows[k - 1][..j + 1]
  {
    RunMeansPrefix(rows, nCol, k - 1, k, j);
    SamePrefix(rows[k - 1], rows[k], j + 1);
  }

  /** The prefix of a row is none of those before its run. */
  lemma NewPrefix(rows: seq<seq<int>>, nCol: nat, k: nat, j: nat)
    requires SortedRows(rows, nCol) && j < nCol && k < |rows|
    ensures rows[k][..j + 1] !in PrefixesUpTo(rows, Start(ChangesOf(rows, nCol), k, j), j + 1)
  {
    var s, n := Start(ChangesOf(rows, nCol), k, j), j + 1;
    var x := rows[k][..n];
    hide PrefixesUpTo, ChangesOf, LessOn, Start;
    PrefixFound(rows, s, n);
    if x in PrefixesUpTo(rows, s, n) {
      var m :| 0 <= m < s && rows[m][..n] == x;
      RunMeansPrefix(rows, nCol, m, k, j);
      SamePrefix(rows[m], rows[k], n);
    }
  }

  /** The number of distinct prefixes below. */
  lemma DistinctCounts(rows: seq<seq<int>>, nCol: nat, k: nat, j: nat)
    requires SortedRows(rows, nCol) && j < nCol && k < |rows|
    ensures |PrefixesBelow(rows, k, j + 1)| == RunsBefore(ChangesOf(rows, nCol), k, j)
  {
    hide LessOn, Start, RunsBefore, PrefixesUpTo;
    var s, n := Start(ChangesOf(rows, nCol), k, j), j + 1;
    var P, Q := PrefixesBelow(rows, k, n), PrefixesUpTo(rows, s, n);
    PrefixCount(rows, nCol, k, j);
    PrefixFound(rows, s, n);
    forall m | 0 <= m < |rows|
      ensures LessOn(rows[m], rows[k], n) <==> m < s
    {
      Trichotomy(rows, nCol, m, k, j);
    }
    forall x ensures x in P <==> x in Q {
      if x in P {
        var m: nat :| m < |rows| && LessOn(rows[m], rows[k], n) && x == rows[m][..n];
      }
      if x in Q {
        var m :| 0 <= m < s && rows[m][..n] == x;
        assert LessOn(rows[m], rows[k], n);
      }
    }
    assert P == Q;
  }

  /** The counters of row k: for every prefix, the rows that share it, the rows below it and the
      distinct prefixes below it. */
  ghost predicate CountsOf(nEq: seq<nat>, nLt: seq<nat>, nDLt: seq<nat>, rows: seq<seq<int>>, k: nat, nCol: nat)
    requires SortedRows(rows, nCol) && k < |rows|
  {
    && |nEq| == |nLt| == |nDLt| == nCol
    && forall j :: 0 <= j < nCol ==> CountAt(nEq, nLt, nDLt, rows, k, nCol, j)
  }

  ghost predicate CountAt(nEq: seq<nat>, nLt: seq<nat>, nDLt: seq<nat>, rows: seq<seq<int>>, k: nat, nCol: nat, j: nat)
    requires SortedRows(rows, nCol) && k < |rows| && |nEq| == |nLt| == |nDLt| == nCol && j < nCol
  {
    && nEq[j] == |EqualRows(rows, k, j + 1)|
    && nLt[j] == |RowsBelow(rows, k, j + 1)|
    && nDLt[j] == |PrefixesBelow(rows, k, j + 1)|
  }

  ghost function DistinctPrefixes(rows: seq<seq<int>>, n: nat): set<seq<int>>
    requires forall m {:trigger rows[m]} :: 0 <= m < |rows| ==> n <= |rows[m]|
  {
    set m: nat | m < |rows| :: rows[m][..n]
  }

  /** The runs up to the last row are the distinct prefixes of the index. */
  lemma DistinctInAll(rows: seq<seq<int>>, nCol: nat, j: nat)
    requires SortedRows(rows, nCol) && j < nCol && rows != []
    ensures |DistinctPrefixes(rows, j + 1)| == RunsBefore(ChangesOf(rows, nCol), |rows| - 1, j) + 1
  {
    hide LessOn, Start, RunsBefore, PrefixesUpTo, ChangesOf;
    var n := j + 1;
    PrefixCount(rows, nCol, |rows| - 1, j);
    PrefixFound(rows, |rows|, n);
    var P, Q := DistinctPrefixes(rows, n), PrefixesUpTo(rows, |rows|, n);
    forall x ensures x in P <==> x in Q {
      if x in Q {
        var m :| 0 <= m < |rows| && rows[m][..n] == x;
      }
    }
    assert P == Q;
  }

  /** A sample whose counters are those of an actual row of the index. */
  ghost predicate Describes(s: Sample, rows: seq<seq<int>>, R: seq<int>, nCol: nat)
    requires SortedRows(rows, nCol)
  {
    ShapedSample(s, nCol) && |R| == |rows| && exists k: nat ::
      k < |rows| && R[k] == s.iRowid && CountsOf(s.anEq, s.anLt, s.anDLt, rows, k, nCol)
  }

  /** The main result: whatever sorted rows are pushed, the finished samples carry exact counts
      of equal rows, rows below and distinct prefixes below, for every prefix length. */
  lemma SamplesDescribeRows(p0: Accum, rows: seq<seq<int>>, R: seq<int>, nTotal: nat)
    requires p0.nCol > 0 && SortedRows(rows, p0.nCol) && rows != [] && |R| == |rows| <= nTotal
    requires Fresh(p0, nTotal) && p0.mxSample >= 2
    ensures var p := PushPrevious(Pushed(p0, ChangesOf(rows, p0.nCol), R, nTotal), 0);
      && |p.a| <= p0.mxSample && AllShaped(p.a, p0.nCol)
      && (forall k {:trigger p.a[k]} :: 0 <= k < |p.a| ==> Describes(p.a[k], rows, R, p0.nCol))
      && (forall x, y :: 0 <= x < y < |p.a| ==> p.a[x].anLt[p0.nCol - 1] < p.a[y].anLt[p0.nCol - 1])
  {
    var C, n := ChangesOf(rows, p0.nCol), p0.nCol;
    AllExact(p0, C, R, nTotal);
    var p := PushPrevious(Pushed(p0, C, R, nTotal), 0);
    forall k {:trigger p.a[k]} | 0 <= k < |p.a|
      ensures Describes(p.a[k], rows, R, n)
    {
      ExactDescribes(p.a[k], rows, R, n);
    }
  }

  lemma ExactDescribes(s: Sample, rows: seq<seq<int>>, R: seq<int>, nCol: nat)
    requires nCol > 0 && SortedRows(rows, nCol) && Exact(s, ChangesOf(rows, nCol), R, nCol)
    ensures Describes(s, rows, R, nCol)
  {
    var k := Row(s);
    hide EqualRows, RowsBelow, PrefixesBelow, ChangesOf, SortedRows;
    forall j | 0 <= j < nCol
      ensures CountAt(s.anEq, s.anLt, s.anDLt, rows, k, nCol, j)
    {
      RunCounts(rows, nCol, k, j);
      DistinctCounts(rows, nCol, k, j);
    }
  }
}
