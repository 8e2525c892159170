/** ANALYZE of one index: every row is pushed, then the samples are read back for sqlite_stat4. */
module Stat4Analyze {
  import opened Wrappers
  import opened Stat4Sampler
  import opened Stat4Runs
  import opened Stat4Proof
  import opened Stat4Rows
  import opened Stat4Accum
  import opened Stat4Coverage
  import opened Stat1Proof
  import opened StatText

  /** One row of sqlite_stat4. */
  datatype Entry = Entry(rowid: int, nEq: seq<nat>, nLt: seq<nat>, nDLt: seq<nat>)

  /** The first nColTest columns are compared in turn; the last is taken to differ. */
  method FindChange(prev: seq<int>, row: seq<int>, nCol: nat, nColTest: nat) returns (regChng: nat)
    requires |prev| == |row| == nCol && nColTest < nCol && FirstDiff(prev, row, nCol) <= nColTest
    ensures regChng == FirstDiff(prev, row, nCol)
  {
    regChng := 0;
    while regChng < nColTest && row[regChng] == prev[regChng]
      invariant regChng <= FirstDiff(prev, row, nCol)
    {
      regChng := regChng + 1;
    }
  }

  /** The rows differ from their neighbours within the first nColTest + 1 columns. */
  ghost predicate Tested(rows: seq<seq<int>>, nCol: nat, nColTest: nat)
    requires SortedRows(rows, nCol)
  {
    forall k {:trigger rows[k]} :: 0 < k < |rows| ==> FirstDiff(rows[k - 1], rows[k], nCol) <= nColTest
  }

  /** The entries that a finished accumulator hands out. */
  ghost predicate Handed(es: seq<Entry>, a: seq<Sample>, n: nat)
    requires n <= |a|
  {
    |es| == n && forall k {:trigger es[k]} :: 0 <= k < n ==>
      es[k] == Entry(a[k].iRowid, a[k].anEq, a[k].anLt, a[k].anDLt)
  }

  /** The entry carries exact counts of some row of the index, for every prefix length. */
  ghost predicate EntryDescribes(e: Entry, rows: seq<seq<int>>, R: seq<int>, nCol: nat)
    requires SortedRows(rows, nCol)
  {
    |R| == |rows| && exists k: nat :: k < |rows| && R[k] == e.rowid && CountsOf(e.nEq, e.nLt, e.nDLt, rows, k, nCol)
  }

  ghost predicate InIndexOrder(es: seq<Entry>, nCol: nat)
    requires nCol > 0
  {
    && (forall k {:trigger es[k]} :: 0 <= k < |es| ==> |es[k].nLt| == nCol)
    && (forall x, y :: 0 <= x < y < |es| ==> es[x].nLt[nCol - 1] < es[y].nLt[nCol - 1])
  }

  /** No prefix of a row is missing from the samples, unless they are as many as there may be and all
      but the periodic ones were kept for prefixes that are at least as frequent. */
  ghost predicate NothingMissed(a: seq<Sample>, rows: seq<seq<int>>, nCol: nat)
    requires nCol > 0 && SortedRows(rows, nCol) && AllShaped(a, nCol)
  {
    forall k: nat, n: nat {:trigger Sampled(a, nCol, SQLITE_STAT4_SAMPLES, rows, k, n)} ::
      k < |rows| && 0 < n < nCol ==> Sampled(a, nCol, SQLITE_STAT4_SAMPLES, rows, k, n)
  }

  /** What ANALYZE owes to sqlite_stat4: at most 24 entries, in index order, each exact, which come from
      samples that miss nothing frequent. */
  ghost predicate Faithful(es: seq<Entry>, a: seq<Sample>, rows: seq<seq<int>>, R: seq<int>, nCol: nat)
    requires nCol > 0 && SortedRows(rows, nCol)
  {
    && |es| <= SQLITE_STAT4_SAMPLES && InIndexOrder(es, nCol)
    && (forall k {:trigger es[k]} :: 0 <= k < |es| ==> EntryDescribes(es[k], rows, R, nCol))
    && Handed(es, a, |a|) && AllShaped(a, nCol) && NothingMissed(a, rows, nCol)
  }

  /** The accumulator has seen all rows of the index. */
  ghost predicate Scanned(acc: Stat4Accum, p0: Accum, rows: seq<seq<int>>, R: seq<int>)
    reads acc, acc.a, acc.aBest
  {
    && acc.Valid() && acc.iGet < 0 && acc.nCol > 0 && p0.nCol == acc.nCol && SortedRows(rows, acc.nCol)
    && |R| == |rows| && Fresh(p0, |rows|) && p0.mxSample == SQLITE_STAT4_SAMPLES
    && Told(p0, ChangesOf(rows, acc.nCol), R, |rows|)
    && acc.nSample <= acc.a.Length && acc.Abs() == Pushed(p0, ChangesOf(rows, acc.nCol), R, |rows|)
  }

  /** Whatever sorted rows the index holds, the entries written to sqlite_stat4 are faithful. */
  method Analyze(rows: seq<seq<int>>, R: seq<int>, nCol: nat, nKeyCol: nat, nColTest: nat)
    returns (es: seq<Entry>, ghost a: seq<Sample>)
    requires 0 < nKeyCol <= nCol && nColTest < nCol && |R| == |rows|
    requires SortedRows(rows, nCol) && Tested(rows, nCol, nColTest)
    ensures Faithful(es, a, rows, R, nCol)
  {
    if rows == [] {
      return [], [];
    }
    ghost var p0;
    var acc;
    acc, p0 := ScanIndex(rows, R, nCol, nKeyCol, nColTest);
    es, a := Stat4Entries(acc, rows, R, p0);
  }

  /** A row of sqlite_stat4 as it is stored. */
  datatype EntryText = EntryText(rowid: int, nEq: string, nLt: string, nDLt: string)

  /** The text says what the entry does: reading its columns gives the counters back. */
  ghost predicate Says(t: EntryText, e: Entry, nCol: nat) {
    t.rowid == e.rowid && Decode(t.nEq, nCol) == e.nEq && Decode(t.nLt, nCol) == e.nLt && Decode(t.nDLt, nCol) == e.nDLt
  }

  ghost predicate AllSay(ts: seq<EntryText>, es: seq<Entry>, n: nat, nCol: nat)
    requires n <= |es|
  {
    |ts| == n && forall k {:trigger ts[k]} :: 0 <= k < n ==> Says(ts[k], es[k], nCol)
  }

  /** Both statistics of an index that is not empty: as long as the counters do not wrap around, the
      text for sqlite_stat1 reads back as the row count and the rows per distinct prefix, and those for
      sqlite_stat4 as the entries. */
  method AnalyzeIndex(rows: seq<seq<int>>, R: seq<int>, nCol: nat, nKeyCol: nat, nColTest: nat)
    returns (zRet: array<char>, len: nat, ts: seq<EntryText>, ghost es: seq<Entry>, ghost a: seq<Sample>)
    requires 0 < nKeyCol <= nCol && nColTest < nCol && |R| == |rows|
    requires SortedRows(rows, nCol) && Tested(rows, nCol, nColTest)
    requires rows != [] && |rows| < TROWCNT_LIMIT
    ensures fresh(zRet) && len < zRet.Length && zRet[len] == '\0'
    ensures Stat1Of(Decode(zRet[..len], nKeyCol + 1), rows, nCol, nKeyCol)
    ensures Faithful(es, a, rows, R, nCol) && AllSay(ts, es, |es|, nCol)
  {
    hide *;
    ghost var p0;
    var acc;
    acc, p0 := ScanIndex(rows, R, nCol, nKeyCol, nColTest);
    ScannedStat1(acc, p0, rows, R);
    zRet, len := StatGetStat1(acc.nRow, acc.current.anDLt, acc.nKeyCol);
    var entries;
    entries, a := Stat4Entries(acc, rows, R, p0);
    es := entries;
    CountsFit(es, a, rows, R, nCol);
    ts := PrintEntries(entries, nCol);
  }

  /** The counters can be printed and read back without loss. */
  predicate Fits(v: seq<nat>, nCol: nat) {
    |v| == nCol && forall j :: 0 <= j < |v| ==> v[j] < TROWCNT_LIMIT
  }

  predicate EntryFits(e: Entry, nCol: nat) {
    Fits(e.nEq, nCol) && Fits(e.nLt, nCol) && Fits(e.nDLt, nCol)
  }

  lemma CountsFit(es: seq<Entry>, a: seq<Sample>, rows: seq<seq<int>>, R: seq<int>, nCol: nat)
    requires nCol > 0 && SortedRows(rows, nCol) && Faithful(es, a, rows, R, nCol) && |rows| < TROWCNT_LIMIT
    ensures forall k {:trigger es[k]} :: 0 <= k < |es| ==> EntryFits(es[k], nCol)
  {
    forall k {:trigger es[k]} | 0 <= k < |es| ensures EntryFits(es[k], nCol) {
      var e := es[k];
      assert EntryDescribes(e, rows, R, nCol);
      var m: nat :| m < |rows| && R[m] == e.rowid && CountsOf(e.nEq, e.nLt, e.nDLt, rows, m, nCol);
      RowCountsFit(e, rows, m, nCol);
    }
    hide Faithful, EntryFits;
  }

  /** No counter of a row exceeds the number of rows. */
  lemma RowCountsFit(e: Entry, rows: seq<seq<int>>, m: nat, nCol: nat)
    requires nCol > 0 && SortedRows(rows, nCol) && |rows| < TROWCNT_LIMIT && m < |rows|
    requires CountsOf(e.nEq, e.nLt, e.nDLt, rows, m, nCol)
    ensures EntryFits(e, nCol)
  {
    hide EqualRows, RowsBelow, PrefixesBelow, SortedRows;
    var C := ChangesOf(rows, nCol);
    forall j | 0 <= j < nCol
      ensures e.nEq[j] <= |rows| && e.nLt[j] <= |rows| && e.nDLt[j] <= |rows|
    {
      assert CountAt(e.nEq, e.nLt, e.nDLt, rows, m, nCol, j);
      RunCounts(rows, nCol, m, j);
      DistinctCounts(rows, nCol, m, j);
      RunsBounded(C, m, j);
    }
  }

  method PrintCounts(v: seq<nat>, nCol: nat) returns (s: string)
    requires Fits(v, nCol) && nCol > 0
    ensures Decode(s, nCol) == v
  {
    var zRet, len := StatGetCounts(v);
    s := zRet[..len];
    DecodeJoin(v);
    hide Decode, Join;
  }

  /** What stat_get hands to the insertion into sqlite_stat4. */
  method PrintEntries(es: seq<Entry>, nCol: nat) returns (ts: seq<EntryText>)
    requires nCol > 0 && forall k {:trigger es[k]} :: 0 <= k < |es| ==> EntryFits(es[k], nCol)
    ensures AllSay(ts, es, |es|, nCol)
  {
    hide Decode;
    ts := [];
    for k := 0 to |es|
      invariant AllSay(ts, es, k, nCol)
    {
      assert EntryFits(es[k], nCol);
      var nEq := PrintCounts(es[k].nEq, nCol);
      var nLt := PrintCounts(es[k].nLt, nCol);
      var nDLt := PrintCounts(es[k].nDLt, nCol);
      ts := ts + [EntryText(es[k].rowid, nEq, nLt, nDLt)];
    }
  }

  lemma ScannedStat1(acc: Stat4Accum, p0: Accum, rows: seq<seq<int>>, R: seq<int>)
    requires Scanned(acc, p0, rows, R) && rows != [] && |rows| < TROWCNT_LIMIT
    ensures acc.nKeyCol <= acc.nCol == |acc.current.anDLt| && acc.nRow < TROWCNT_LIMIT
    ensures forall i :: 0 <= i < acc.nKeyCol ==> acc.current.anDLt[i] < TROWCNT_LIMIT - 1
    ensures SortedRows(rows, acc.nCol)
    ensures
      var v := Decode(Join([acc.nRow] + Estimates(acc.nRow, acc.current.anDLt, acc.nKeyCol)), acc.nKeyCol + 1);
      Stat1Of(v, rows, acc.nCol, acc.nKeyCol)
  {
    acc.ValidFacts();
    PushedState(p0, ChangesOf(rows, acc.nCol), R, |rows|);
    hide Decode, Join, Estimates, Stat1Of, SortedRows, Stat4Proof.Inv, Ready, Fresh, Pushed, Told, ChangesOf;
    Stat1OfRows(acc.Abs(), rows, R);
  }

  lemma PushedState(p0: Accum, C: seq<nat>, R: seq<int>, nTotal: nat)
    requires Told(p0, C, R, nTotal) && C != []
    ensures Stat4Proof.Inv(Pushed(p0, C, R, nTotal), C, R)
  {
    hide Stat4Proof.Inv, Ready;
  }

  /** stat_init and the loop over the index. */
  method ScanIndex(rows: seq<seq<int>>, R: seq<int>, nCol: nat, nKeyCol: nat, nColTest: nat)
    returns (acc: Stat4Accum, ghost p0: Accum)
    requires 0 < nKeyCol <= nCol && nColTest < nCol && |R| == |rows|
    requires SortedRows(rows, nCol) && Tested(rows, nCol, nColTest)
    ensures fresh(acc) && fresh(acc.a) && fresh(acc.aBest) && acc.nCol == nCol && acc.nKeyCol == nKeyCol
    ensures Scanned(acc, p0, rows, R)
  {
    acc := new Stat4Accum(nCol, nKeyCol, |rows|);
    assert acc.mxSample == SQLITE_STAT4_SAMPLES >= 2;
    hide Stat4Accum.Valid, Ready, Fresh, Told, Pushed, SortedRows, Tested, ChangesOf, Shaped, Periodics;
    acc.ValidFacts();
    p0 := acc.Abs();
    PushRows(acc, rows, R, nColTest, p0);
    acc.ValidFacts();
  }

  /** The entries of an index that has been scanned. */
  method Stat4Entries(acc: Stat4Accum, rows: seq<seq<int>>, R: seq<int>, ghost p0: Accum)
    returns (es: seq<Entry>, ghost a: seq<Sample>)
    requires Scanned(acc, p0, rows, R) && rows != []
    modifies acc, acc.a, acc.aBest
    ensures SortedRows(rows, acc.nCol) && acc.nCol > 0 && Faithful(es, a, rows, R, acc.nCol)
  {
    a := [];
    hide Stat4Accum.Valid, Ready, Fresh, Told, Pushed, SortedRows, ChangesOf, Faithful, Handed, PushPrevious;
    acc.ValidFacts();
    a := PushPrevious(acc.Abs(), 0).a;
    es := ReadBack(acc);
    HandedDescribe(es, p0, rows, R);
    HandedCovers(p0, rows, R);
    FaithfulIs(es, a, rows, R, acc.nCol);
  }

  lemma FaithfulIs(es: seq<Entry>, a: seq<Sample>, rows: seq<seq<int>>, R: seq<int>, nCol: nat)
    requires nCol > 0 && SortedRows(rows, nCol)
    requires |es| <= SQLITE_STAT4_SAMPLES && InIndexOrder(es, nCol)
    requires forall k {:trigger es[k]} :: 0 <= k < |es| ==> EntryDescribes(es[k], rows, R, nCol)
    requires Handed(es, a, |a|) && AllShaped(a, nCol) && NothingMissed(a, rows, nCol)
    ensures Faithful(es, a, rows, R, nCol)
  {
  }

  lemma HandedCovers(p0: Accum, rows: seq<seq<int>>, R: seq<int>)
    requires p0.nCol > 0 && SortedRows(rows, p0.nCol) && rows != [] && |R| == |rows|
    requires p0.mxSample == SQLITE_STAT4_SAMPLES
    requires
      var C := ChangesOf(rows, p0.nCol);
      C != [] && Told(p0, C, R, |rows|) && Ready(Pushed(p0, C, R, |rows|))
    ensures
      var a := PushPrevious(Pushed(p0, ChangesOf(rows, p0.nCol), R, |rows|), 0).a;
      AllShaped(a, p0.nCol) && NothingMissed(a, rows, p0.nCol)
  {
    hide *;
    FinishedIs(p0, ChangesOf(rows, p0.nCol), R, |rows|);
    FinishedMisses(p0, rows, ChangesOf(rows, p0.nCol), R);
  }

  lemma FinishedMisses(p0: Accum, rows: seq<seq<int>>, C: seq<nat>, R: seq<int>)
    requires p0.nCol > 0 && SortedRows(rows, p0.nCol) && C == ChangesOf(rows, p0.nCol) && C != []
    requires p0.mxSample == SQLITE_STAT4_SAMPLES && Told(p0, C, R, |rows|)
    ensures NothingMissed(Finished(p0, C, R, |rows|).a, rows, p0.nCol)
  {
    hide Sampled, Finished, Told, SortedRows, AllShaped, ChangesOf;
    var a := Finished(p0, C, R, |rows|).a;
    forall k: nat, n: nat {:trigger Sampled(a, p0.nCol, SQLITE_STAT4_SAMPLES, rows, k, n)}
      | k < |rows| && 0 < n < p0.nCol
      ensures Sampled(a, p0.nCol, SQLITE_STAT4_SAMPLES, rows, k, n)
    {
      FrequentPrefixesSampled(p0, rows, C, R, |rows|, k, n);
    }
  }

  /** The pushes so far, and one more. */
  lemma OneMorePush(p0: Accum, C: seq<nat>, R: seq<int>, nTotal: nat, k: nat)
    requires Told(p0, C, R, nTotal) && k < |C|
    ensures |R| == |C| && Told(p0, C[..k], R[..k], nTotal) && Told(p0, C[..k + 1], R[..k + 1], nTotal)
    ensures var q := Pushed(p0, C[..k], R[..k], nTotal);
      && Ready(q) && Periodics(q.a) + 1 < q.mxSample
      && Pushed(p0, C[..k + 1], R[..k + 1], nTotal) == Stat4Sampler.StatPush(q, C[k], R[k])
  {
    var D, S := C[..k + 1], R[..k + 1];
    assert Told(p0, C[..k], R[..k], nTotal) && Told(p0, D, S, nTotal);
    assert D[..k] == C[..k] && S[..k] == R[..k];
    assert C[k] < p0.nCol && (C[..k] == [] ==> C[k] == 0);
    hide Stat4Sampler.StatPush, Ready, Stat4Proof.Inv, Fresh;
    PushedStep(p0, Pushed(p0, C[..k], R[..k], nTotal), C[..k], R[..k], C[k], R[k], nTotal);
  }

  lemma NoPush(p0: Accum, rows: seq<seq<int>>, R: seq<int>)
    requires Fresh(p0, |rows|) && p0.mxSample >= 2 && p0.nCol > 0 && SortedRows(rows, p0.nCol) && |R| == |rows|
    ensures var C := ChangesOf(rows, p0.nCol);
      && |C| == |rows| && Told(p0, C, R, |rows|)
      && Told(p0, C[..0], R[..0], |rows|) && Pushed(p0, C[..0], R[..0], |rows|) == p0
  {
    assert ChangesOf(rows, p0.nCol)[..0] == [] && R[..0] == [];
  }

  /** The loop over the index: the first row changes column 0, every other the first column in which
      it differs from the row before. */
  method PushRows(acc: Stat4Accum, rows: seq<seq<int>>, R: seq<int>, nColTest: nat, ghost p0: Accum)
    requires acc.Valid() && p0 == acc.Abs() && p0.nCol == acc.nCol > 0 && nColTest < acc.nCol && |R| == |rows|
    requires Fresh(p0, |rows|) && p0.mxSample >= 2 && acc.iGet < 0
    requires SortedRows(rows, acc.nCol) && Tested(rows, acc.nCol, nColTest)
    modifies acc, acc.a, acc.aBest
    ensures acc.Valid() && acc.iGet < 0
    ensures Told(p0, ChangesOf(rows, acc.nCol), R, |rows|)
    ensures acc.Abs() == Pushed(p0, ChangesOf(rows, acc.nCol), R, |rows|)
  {
    hide *;
    ghost var C := ChangesOf(rows, acc.nCol);
    ghost var n := |rows|;
    NoPush(p0, rows, R);
    acc.ValidFacts();
    var prev: seq<int> := [];
    var k := 0;
    while k < |rows|
      invariant 0 <= k <= |rows| == |C| && (k > 0 ==> prev == rows[k - 1])
      invariant acc.Valid() && acc.iGet < 0 && Told(p0, C[..k], R[..k], n)
      invariant acc.nSample <= acc.a.Length
      invariant acc.Abs() == Pushed(p0, C[..k], R[..k], n)
    {
      OneMorePush(p0, C, R, n, k);
      var regChng := 0;
      if k > 0 {
        Neighbours(rows, acc.nCol, nColTest, k);
        regChng := FindChange(prev, rows[k], acc.nCol, nColTest);
      }
      ChangeIs(rows, acc.nCol, k);
      acc.ValidFacts();
      acc.StatPush(regChng, R[k]);
      acc.ValidFacts();
      prev := rows[k];
      k := k + 1;
    }
    assert C[..k] == C && R[..k] == R;
  }

  lemma Neighbours(rows: seq<seq<int>>, nCol: nat, nColTest: nat, k: nat)
    requires SortedRows(rows, nCol) && Tested(rows, nCol, nColTest) && 0 < k < |rows|
    ensures |rows[k - 1]| == |rows[k]| == nCol && FirstDiff(rows[k - 1], rows[k], nCol) <= nColTest
  {
  }

  lemma ChangeIs(rows: seq<seq<int>>, nCol: nat, k: nat)
    requires SortedRows(rows, nCol) && nCol > 0 && k < |rows|
    ensures |rows[k]| == nCol && (k > 0 ==> |rows[k - 1]| == nCol)
    ensures |ChangesOf(rows, nCol)| == |rows|
    ensures ChangesOf(rows, nCol)[k] == if k == 0 then 0 else FirstDiff(rows[k - 1], rows[k], nCol)
  {
  }

  /** The loop that reads the samples back: row key, nEq, nLt and nDLt, until there is no sample. */
  method ReadBack(acc: Stat4Accum) returns (es: seq<Entry>)
    requires acc.Valid() && acc.iGet < 0
    modifies acc, acc.a, acc.aBest
    ensures Ready(old(acc.Abs()))
    ensures var a := PushPrevious(old(acc.Abs()), 0).a; Handed(es, a, |a|)
  {
    hide Ready, PushPrevious, Periodics, Shaped, AllShaped, Fresh;
    acc.ValidFacts();
    ghost var a := PushPrevious(acc.Abs(), 0).a;
    es := [];
    var regSampleRowid := acc.StatGetRowid();
    while regSampleRowid != None
      invariant acc.Valid() && 0 <= acc.iGet <= |a| && Handed(es, a, acc.iGet)
      invariant acc.Abs().a == a
      invariant regSampleRowid == if acc.iGet < |a| then Some(a[acc.iGet].iRowid) else None
      decreases |a| - acc.iGet
    {
      ghost var i := acc.iGet;
      assert acc.a[i] == a[i];
      var regEq := acc.StatGetCounts(NEq);
      var regLt := acc.StatGetCounts(NLt);
      var regDLt := acc.StatGetCounts(NDLt);
      assert acc.Abs().a == a;
      es := es + [Entry(regSampleRowid.value, regEq, regLt, regDLt)];
      regSampleRowid := acc.StatGetRowid();
      assert acc.iGet < |a| ==> acc.a[acc.iGet] == a[acc.iGet];
    }
  }

  /** What is handed out after all rows have been pushed. */
  lemma HandedDescribe(es: seq<Entry>, p0: Accum, rows: seq<seq<int>>, R: seq<int>)
    requires p0.nCol > 0 && SortedRows(rows, p0.nCol) && rows != [] && |R| == |rows|
    requires Fresh(p0, |rows|) && p0.mxSample >= 2
    requires Told(p0, ChangesOf(rows, p0.nCol), R, |rows|) && Ready(Pushed(p0, ChangesOf(rows, p0.nCol), R, |rows|))
    requires var a := PushPrevious(Pushed(p0, ChangesOf(rows, p0.nCol), R, |rows|), 0).a; Handed(es, a, |a|)
    ensures |es| <= p0.mxSample && InIndexOrder(es, p0.nCol)
    ensures forall k {:trigger es[k]} :: 0 <= k < |es| ==> EntryDescribes(es[k], rows, R, p0.nCol)
  {
    hide *;
    SamplesDescribeRows(p0, rows, R, |rows|);
    EntriesDescribe(es, PushPrevious(Pushed(p0, ChangesOf(rows, p0.nCol), R, |rows|), 0).a, rows, R, p0.nCol);
  }

  lemma EntriesDescribe(es: seq<Entry>, a: seq<Sample>, rows: seq<seq<int>>, R: seq<int>, nCol: nat)
    requires nCol > 0 && SortedRows(rows, nCol) && Handed(es, a, |a|) && AllShaped(a, nCol)
    requires forall k {:trigger a[k]} :: 0 <= k < |a| ==> Describes(a[k], rows, R, nCol)
    requires forall x, y :: 0 <= x < y < |a| ==> a[x].anLt[nCol - 1] < a[y].anLt[nCol - 1]
    ensures |es| == |a| && InIndexOrder(es, nCol)
    ensures forall k {:trigger es[k]} :: 0 <= k < |es| ==> EntryDescribes(es[k], rows, R, nCol)
  {
    hide SortedRows, EntryDescribes, Describes;
    forall k {:trigger es[k]} | 0 <= k < |es| ensures EntryDescribes(es[k], rows, R, nCol) && |es[k].nLt| == nCol {
      OneDescribes(a[k], rows, R, nCol);
    }
  }

  lemma OneDescribes(s: Sample, rows: seq<seq<int>>, R: seq<int>, nCol: nat)
    requires SortedRows(rows, nCol) && Describes(s, rows, R, nCol)
    ensures |s.anLt| == nCol && EntryDescribes(Entry(s.iRowid, s.anEq, s.anLt, s.anDLt), rows, R, nCol)
  {
    hide CountsOf, SortedRows;
  }
}
