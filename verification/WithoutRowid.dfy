/** Turning a table into a WITHOUT ROWID table: the column lists of its indexes. */
module WithoutRowid {
  import opened Names

  const OE_Replace := 5
  const OE_Default := 11

  /** The first occurrences, in order. */
  function Dedup(cols: seq<int>): (r: seq<int>)
  {
    if cols == [] then []
    else
      var r := Dedup(cols[..|cols| - 1]);
      if cols[|cols| - 1] in r then r else r + [cols[|cols| - 1]]
  }

  lemma DedupNext(cols: seq<int>, i: nat)
    requires i < |cols|
    ensures Dedup(cols[..i + 1]) ==
      if cols[i] in Dedup(cols[..i]) then Dedup(cols[..i]) else Dedup(cols[..i]) + [cols[i]]
    ensures i == 0 ==> Dedup(cols[..1]) == cols[..1]
  {
    assert cols[..i + 1][..i] == cols[..i];
  }

  /** The members of cols that are not in have, in order. */
  function Missing(cols: seq<int>, have: seq<int>): (r: seq<int>) {
    if cols == [] then []
    else Missing(cols[..|cols| - 1], have) + if cols[|cols| - 1] in have then [] else [cols[|cols| - 1]]
  }

  predicate Distinct(s: seq<int>) {
    forall i, j :: 0 <= i < j < |s| ==> s[i] != s[j]
  }

  /** 0, 1, ... n - 1 */
  function Upto(n: nat): (r: seq<int>)
    ensures |r| == n && forall i :: 0 <= i < n ==> r[i] == i
  {
    seq(n, i => i)
  }

  lemma {:induction false} DedupMeans(cols: seq<int>)
    ensures Distinct(Dedup(cols)) && |Dedup(cols)| <= |cols|
    ensures forall x :: x in Dedup(cols) <==> x in cols
  {
    if cols != [] {
      var n := |cols| - 1;
      DedupMeans(cols[..n]);
      assert cols == cols[..n] + [cols[n]];
    }
  }

  lemma {:induction false} MissingMeans(cols: seq<int>, have: seq<int>)
    ensures forall x :: x in Missing(cols, have) <==> x in cols && x !in have
    ensures |Missing(cols, have)| <= |cols|
    ensures Distinct(cols) ==> Distinct(Missing(cols, have))
  {
    if cols != [] {
      var n := |cols| - 1;
      MissingMeans(cols[..n], have);
      assert cols == cols[..n] + [cols[n]];
      if Distinct(cols) {
        assert Distinct(cols[..n]);
        assert cols[n] !in cols[..n];
      }
    }
  }

  /** x occurs in cols before any y does. */
  ghost predicate Before(cols: seq<int>, x: int, y: int) {
    exists i :: 0 <= i < |cols| && cols[i] == x && y !in cols[..i + 1]
  }

  lemma BeforeStays(cols: seq<int>, n: nat, x: int, y: int)
    requires n <= |cols| && Before(cols[..n], x, y)
    ensures Before(cols, x, y)
  {
    var i :| 0 <= i < n && cols[..n][i] == x && y !in cols[..n][..i + 1];
    assert cols[..n][..i + 1] == cols[..i + 1];
  }

  lemma BeforeLast(cols: seq<int>, n: nat, x: int)
    requires n < |cols| && x in cols[..n] && cols[n] !in cols[..n]
    ensures Before(cols, x, cols[n])
  {
    var i :| 0 <= i < n && cols[..n][i] == x;
    assert cols[..i + 1] == cols[..n][..i + 1];
  }

  /** Columns listed twice keep their first place. */
  lemma {:induction false} DedupOrder(cols: seq<int>)
    ensures forall i, j :: 0 <= i < j < |Dedup(cols)| ==> Before(cols, Dedup(cols)[i], Dedup(cols)[j])
  {
    if cols != [] {
      var n, r := |cols| - 1, Dedup(cols);
      DedupOrder(cols[..n]);
      DedupMeans(cols[..n]);
      var d := Dedup(cols[..n]);
      assert forall x :: x in d <==> x in cols[..n];
      forall i, j | 0 <= i < j < |r|
        ensures Before(cols, r[i], r[j])
      {
        if j < |d| {
          BeforeStays(cols, n, r[i], r[j]);
        } else {
          assert cols[n] !in d && r == d + [cols[n]] && r[i] in d;
          BeforeLast(cols, n, r[i]);
        }
      }
    }
  }

  /** What is missing is added in the order of the list it comes from. */
  lemma {:induction false} MissingOrder(cols: seq<int>, have: seq<int>)
    requires Distinct(cols)
    ensures forall i, j :: 0 <= i < j < |Missing(cols, have)| ==>
      Before(cols, Missing(cols, have)[i], Missing(cols, have)[j])
  {
    if cols != [] {
      var n, r := |cols| - 1, Missing(cols, have);
      MissingOrder(cols[..n], have);
      MissingMeans(cols[..n], have);
      assert cols[n] !in cols[..n];
      var d := Missing(cols[..n], have);
      assert forall x :: x in d ==> x in cols[..n];
      forall i, j | 0 <= i < j < |r|
        ensures Before(cols, r[i], r[j])
      {
        if j < |d| {
          BeforeStays(cols, n, r[i], r[j]);
        } else {
          assert r == d + [cols[n]] && r[i] in d;
          BeforeLast(cols, n, r[i]);
        }
      }
    }
  }

  /** hasColumn */
  method HasColumn(aiCol: array<int>, nCol: nat, x: int) returns (r: bool)
    requires nCol <= aiCol.Length
    ensures r <==> x in aiCol[..nCol]
  {
    var n := 0;
    while n < nCol
      invariant n <= nCol && x !in aiCol[..n]
    {
      if x == aiCol[n] {
        return true;
      }
      n := n + 1;
    }
    return false;
  }

  /** An index: nKeyCol columns are its key, nColumn are stored. azColl are the collations of the key
      as it was declared. */
  class Index {
    var aiColumn: array<int>
    var nKeyCol: nat
    var nColumn: nat
    var isResized: bool
    var isPrimary: bool
    var onError: nat
    const azColl: seq<string>

    constructor (key: seq<int>, azColl: seq<string>, onError: nat, isPrimary: bool)
      ensures Original(key) && this.isPrimary == isPrimary && this.onError == onError && this.azColl == azColl
      ensures fresh(aiColumn)
    {
      var cols := key + [-1];
      aiColumn := new int[|cols|](i requires 0 <= i < |cols| => cols[i]);
      nKeyCol, nColumn, isResized := |key|, |cols|, false;
      this.azColl, this.onError, this.isPrimary := azColl, onError, isPrimary;
      new;
      assert aiColumn[..nColumn] == cols;
    }

    /** As sqlite3CreateIndex leaves an index of a rowid table: the key and then the rowid. */
    ghost predicate Original(key: seq<int>)
      reads this, aiColumn
    {
      Valid() && nColumn == nKeyCol + 1 && !isResized && Key() == key
    }

    /** The index stores these columns, of which the first n are its key. */
    ghost predicate Stores(cols: seq<int>, n: nat)
      reads this, aiColumn
    {
      Valid() && Cols() == cols && nKeyCol == n
    }

    ghost predicate Valid()
      reads this
    {
      nKeyCol <= nColumn <= aiColumn.Length
    }

    /** The stored columns. */
    ghost function Cols(): seq<int>
      requires Valid()
      reads this, aiColumn
    {
      aiColumn[..nColumn]
    }

    ghost function Key(): seq<int>
      requires Valid()
      reads this, aiColumn
    {
      aiColumn[..nKeyCol]
    }

    /** resizeIndexObject: room for N columns; the new ones are 0. */
    method Resize(N: nat)
      requires Valid() && (nColumn < N ==> !isResized)
      modifies this`aiColumn, this`nColumn, this`isResized
      ensures Valid()
      ensures if old(nColumn) >= N
        then aiColumn == old(aiColumn) && nColumn == old(nColumn) && isResized == old(isResized)
        else fresh(aiColumn) && nColumn == aiColumn.Length == N && isResized
      ensures Cols()[..old(nColumn)] == old(Cols())
    {
      if nColumn >= N {
        return;
      }
      assert !isResized;
      var zExtra := new int[N](_ => 0);
      forall i | 0 <= i < nColumn {
        zExtra[i] := aiColumn[i];
      }
      aiColumn := zExtra;
      nColumn := N;
      isResized := true;
    }

    /** Column i takes place j, behind the columns kept so far. */
    method MoveDown(i: nat, j: nat)
      requires j <= i < aiColumn.Length
      modifies aiColumn
      ensures aiColumn[..j + 1] == old(aiColumn[..j]) + [old(aiColumn[i])]
      ensures aiColumn[i + 1..] == old(aiColumn[i + 1..])
    {
      aiColumn[j] := aiColumn[i];
    }

    /** The first i columns of the key have been looked at and j of them kept; the rest is as in all. */
    ghost predicate Sifted(i: nat, j: nat, key: seq<int>, all: seq<int>)
      reads this`aiColumn, aiColumn
    {
      && j <= i <= |key| <= aiColumn.Length && key <= all && |all| == aiColumn.Length
      && aiColumn[..j] == Dedup(key[..i]) && aiColumn[i..] == all[i..]
    }

    lemma SiftStart(key: seq<int>)
      requires 0 < |key| && key <= aiColumn[..]
      ensures Sifted(1, 1, key, aiColumn[..])
    {
      DedupNext(key, 0);
    }

    lemma SiftEnd(j: nat, key: seq<int>, all: seq<int>)
      requires Sifted(|key|, j, key, all)
      ensures j <= aiColumn.Length && aiColumn[..j] == Dedup(key)
    {
      assert key[..|key|] == key;
    }

    /** Column i of a key is kept behind those kept so far, unless it is among them. */
    method KeepColumn(i: nat, j: nat, ghost key: seq<int>, ghost all: seq<int>) returns (found: bool)
      requires i < |key| && nColumn > 0 && Sifted(i, j, key, all)
      modifies this`nColumn, aiColumn
      ensures nColumn == old(nColumn) - (if found then 1 else 0)
      ensures Sifted(i + 1, if found then j else j + 1, key, all)
    {
      DedupNext(key, i);
      hide Dedup;
      assert aiColumn[i] == aiColumn[i..][0] == key[i] && aiColumn[i + 1..] == aiColumn[i..][1..];
      found := HasColumn(aiColumn, j, aiColumn[i]);
      if found {
        nColumn := nColumn - 1;
      } else {
        MoveDown(i, j);
      }
    }

    /** Removes the repeated columns of a primary key, in place. */
    method RemoveRepeated()
      requires Valid() && nKeyCol > 0
      modifies this`nKeyCol, this`nColumn, aiColumn
      ensures Valid() && Key() == Dedup(old(Key()))
      ensures old(nColumn) - nColumn == old(nKeyCol) - nKeyCol
    {
      hide Dedup, Sifted;
      ghost var key, all, n0 := Key(), aiColumn[..], nColumn;
      SiftStart(key);
      var i, j := 1, 1;
      while i < nKeyCol
        invariant 1 <= j <= i <= nKeyCol && nKeyCol == |key| <= n0 <= aiColumn.Length && nColumn == n0 - (i - j)
        invariant aiColumn == old(aiColumn) && Sifted(i, j, key, all)
      {
        var found := KeepColumn(i, j, key, all);
        j := if found then j else j + 1;
        i := i + 1;
      }
      SiftEnd(j, key, all);
      nKeyCol := j;
    }

    /** Exchanges the rowid at the end of an index for the columns of the primary key that the index
        lacks. */
    method AppendKey(pk: Index)
      requires Valid() && pk.Valid() && pk != this && pk.aiColumn != aiColumn
      requires nColumn == nKeyCol + 1 && !isResized
      modifies this`aiColumn, this`nColumn, this`isResized, aiColumn
      ensures Valid() && Cols() == old(Key()) + Missing(old(pk.Key()), old(Key()))
      ensures aiColumn == old(aiColumn) || fresh(aiColumn)
    {
      ghost var key, add := Key(), pk.Key();
      MissingNone(add, key);
      hide Missing;
      var nPk := pk.nKeyCol;
      var n: nat := 0;
      for i := 0 to nPk
        modifies {}
        invariant n == |Missing(add[..i], key)|
      {
        var found := HasColumn(aiColumn, nKeyCol, pk.aiColumn[i]);
        MissingNext(add, i, key);
        assert pk.aiColumn[i] == add[i] && aiColumn[..nKeyCol] == key;
        if !found {
          n := n + 1;
        }
      }
      assert add[..nPk] == add;
      if n == 0 {
        nColumn := nKeyCol;
        return;
      }
      Resize(nKeyCol + n);
      assert Cols()[..nKeyCol] == key;
      FillFrom(pk, n, key, add);
    }

    /** The second loop: the columns go in behind the key. */
    method FillFrom(pk: Index, n: nat, ghost key: seq<int>, ghost add: seq<int>)
      requires Valid() && pk.Valid() && pk != this && pk.aiColumn != aiColumn
      requires key == Key() && add == pk.Key() && n == |Missing(add, key)| && nColumn == nKeyCol + n
      modifies aiColumn
      ensures Valid() && Cols() == key + Missing(add, key)
    {
      hide Missing;
      MissingNone(add, key);
      var j := nKeyCol;
      for i := 0 to pk.nKeyCol
        invariant j == nKeyCol + |Missing(add[..i], key)| <= nColumn
        invariant aiColumn[..nKeyCol] == key && aiColumn[nKeyCol..j] == Missing(add[..i], key)
        invariant pk.aiColumn[..pk.nKeyCol] == add
      {
        var found := HasColumn(aiColumn, nKeyCol, pk.aiColumn[i]);
        MissingNext(add, i, key);
        assert pk.aiColumn[i] == pk.aiColumn[..pk.nKeyCol][i] == add[i];
        ghost var filled := aiColumn[nKeyCol..j];
        if !found {
          aiColumn[j] := pk.aiColumn[i];
          j := j + 1;
          assert aiColumn[nKeyCol..j] == filled + [add[i]];
        }
      }
      assert add[..|add|] == add;
      assert aiColumn[..nColumn] == aiColumn[..nKeyCol] + aiColumn[nKeyCol..nColumn];
    }

    /** Adds all other columns of the table to the primary key, which so becomes covering. */
    method CoverTable(nCol: nat)
      requires Valid() && Distinct(Key()) && forall i :: 0 <= i < nKeyCol ==> 0 <= aiColumn[i] < nCol
      requires nColumn == nKeyCol + 1 && !isResized
      modifies this`aiColumn, this`nColumn, this`isResized, aiColumn
      ensures Valid() && Cols() == old(Key()) + Missing(Upto(nCol), old(Key()))
      ensures aiColumn == old(aiColumn) || fresh(aiColumn)
    {
      ghost var key := Key();
      CoverSize(key, nCol);
      if nKeyCol < nCol {
        Resize(nCol);
        assert Cols()[..nKeyCol] == key;
        FillRest(nCol, key);
      } else {
        nColumn := nCol;
        assert Missing(Upto(nCol), key) == [];
      }
    }

    method FillRest(nCol: nat, ghost key: seq<int>)
      requires Valid() && key == Key() && nColumn == nCol && |key| + |Missing(Upto(nCol), key)| == nCol
      modifies aiColumn
      ensures Valid() && Cols() == key + Missing(Upto(nCol), key)
    {
      var j := nKeyCol;
      for i := 0 to nCol
        invariant j == nKeyCol + |Missing(Upto(i), key)| <= nColumn
        invariant aiColumn[..j] == key + Missing(Upto(i), key)
      {
        var found := HasColumn(aiColumn, j, i);
        NextColumn(i, nCol, key);
        ghost var filled := aiColumn[..j];
        if !found {
          aiColumn[j] := i;
          j := j + 1;
          assert aiColumn[..j] == filled + [i];
        }
      }
    }
  }

  lemma {:induction false} MissingGrows(cols: seq<int>, n: nat, have: seq<int>)
    requires n <= |cols|
    ensures |Missing(cols[..n], have)| <= |Missing(cols, have)|
    decreases |cols|
  {
    if n < |cols| {
      var m := |cols| - 1;
      MissingGrows(cols[..m], n, have);
      assert cols[..m][..n] == cols[..n];
    } else {
      assert cols[..n] == cols;
    }
  }

  lemma MissingNone(cols: seq<int>, have: seq<int>)
    ensures Missing(cols[..0], have) == [] && Missing(cols[..|cols|], have) == Missing(cols, have)
  {
    assert cols[..|cols|] == cols;
  }

  lemma MissingNext(cols: seq<int>, i: nat, have: seq<int>)
    requires i < |cols|
    ensures Missing(cols[..i + 1], have) == Missing(cols[..i], have) + if cols[i] in have then [] else [cols[i]]
    ensures |Missing(cols[..i + 1], have)| <= |Missing(cols, have)|
  {
    assert cols[..i + 1][..i] == cols[..i];
    MissingGrows(cols, i + 1, have);
  }

  /** Column i is missing from the key and the columns below it exactly when the key lacks it. */
  lemma NextColumn(i: nat, nCol: nat, key: seq<int>)
    requires i < nCol
    ensures i in key + Missing(Upto(i), key) <==> i in key
    ensures Missing(Upto(i + 1), key) == Missing(Upto(i), key) + if i in key then [] else [i]
    ensures |Missing(Upto(i + 1), key)| <= |Missing(Upto(nCol), key)|
  {
    MissingMeans(Upto(i), key);
    assert Upto(i + 1)[..i] == Upto(i);
    assert Upto(nCol)[..i + 1] == Upto(i + 1);
    MissingGrows(Upto(nCol), i + 1, key);
  }

  // ---------------------------------------------------------------- permutations

  function Elements(s: seq<int>): set<int> {
    set x | x in s
  }

  lemma {:induction false} DistinctSize(s: seq<int>)
    requires Distinct(s)
    ensures |Elements(s)| == |s|
  {
    if s != [] {
      var n := |s| - 1;
      DistinctSize(s[..n]);
      assert Elements(s) == Elements(s[..n]) + {s[n]};
      assert s[n] !in Elements(s[..n]);
    }
  }

  lemma UptoHas(n: nat, x: int)
    ensures x in Upto(n) <==> 0 <= x < n
  {
    if 0 <= x < n {
      assert Upto(n)[x] == x;
    }
  }

  /** A distinct key followed by the columns it lacks is a permutation of all the columns. */
  lemma CoverSize(key: seq<int>, nCol: nat)
    requires Distinct(key) && forall i :: 0 <= i < |key| ==> 0 <= key[i] < nCol
    ensures var all := key + Missing(Upto(nCol), key);
      |all| == nCol && Distinct(all) && forall x :: 0 <= x < nCol ==> x in all
  {
    var rest := Missing(Upto(nCol), key);
    MissingMeans(Upto(nCol), key);
    var all := key + rest;
    assert Distinct(all) by {
      forall i, j | 0 <= i < j < |all|
        ensures all[i] != all[j]
      {
        if i < |key| <= j {
          assert rest[j - |key|] in rest;
        }
      }
    }
    forall x
      ensures x in all <==> 0 <= x < nCol
      ensures x in Upto(nCol) <==> 0 <= x < nCol
    {
      UptoHas(nCol, x);
      assert x in all <==> x in key || x in rest;
    }
    DistinctSize(all);
    DistinctSize(Upto(nCol));
    assert Elements(all) == Elements(Upto(nCol)) by {
      assert forall x :: x in Elements(all) <==> x in Elements(Upto(nCol));
    }
  }

  // ---------------------------------------------------------------- the table

  /** A table under construction: iPKey is its INTEGER PRIMARY KEY column, -1 when it has none. */
  class Table {
    const nCol: nat
    var iPKey: int
    var pIndex: seq<Index>

    constructor (nCol: nat, iPKey: int, pIndex: seq<Index>)
      ensures this.nCol == nCol && this.iPKey == iPKey && this.pIndex == pIndex
    {
      this.nCol, this.iPKey, this.pIndex := nCol, iPKey, pIndex;
    }
  }

  ghost predicate Separate(list: seq<Index>)
    reads list
  {
    forall i, j :: 0 <= i < |list| && 0 <= j < |list| && i != j ==>
      list[i] != list[j] && list[i].aiColumn != list[j].aiColumn
  }

  /** The indexes other than the primary key are each converted, up to place n. */
  ghost predicate Converted(list: seq<Index>, keys: seq<seq<int>>, pkKey: seq<int>, n: nat)
    reads list, set i | 0 <= i < |list| :: list[i].aiColumn
    requires |keys| == |list|
  {
    forall i {:trigger list[i]} :: 0 <= i < |list| && !list[i].isPrimary ==>
      if i < n then list[i].Stores(keys[i] + Missing(pkKey, keys[i]), |keys[i]|) else list[i].Original(keys[i])
  }

  ghost function Others(list: seq<Index>, pPk: Index): set<Index> {
    set i | 0 <= i < |list| && list[i] != pPk :: list[i]
  }

  /** Index n of the list, which is not the primary key, is converted. */
  method ConvertOne(list: seq<Index>, n: nat, pPk: Index, ghost keys: seq<seq<int>>, ghost pkKey: seq<int>)
    requires Separate(list) && |keys| == |list| && n < |list| && pPk in list && list[n] != pPk
    requires !list[n].isPrimary && pPk.Original(pkKey) && Converted(list, keys, pkKey, n)
    modifies {list[n]}`aiColumn, {list[n]}`nColumn, {list[n]}`isResized, list[n].aiColumn
    ensures Separate(list) && pPk.Original(pkKey) && Converted(list, keys, pkKey, n + 1)
    ensures list[n].aiColumn == old(list[n].aiColumn) || fresh(list[n].aiColumn)
  {
    var pIdx := list[n];
    assert pIdx.Original(keys[n]);
    assert forall i {:trigger list[i]} :: 0 <= i < |list| && i != n ==>
      list[i] != pIdx && list[i].aiColumn != pIdx.aiColumn;
    hide Missing;
    pIdx.AppendKey(pPk);
  }

  lemma SkipPrimary(list: seq<Index>, keys: seq<seq<int>>, pkKey: seq<int>, n: nat)
    requires |keys| == |list| && n < |list| && list[n].isPrimary && Converted(list, keys, pkKey, n)
    ensures Converted(list, keys, pkKey, n + 1)
  {
  }

  /** The loop over the indexes of the table that are not the primary key. */
  method ConvertOthers(list: seq<Index>, pPk: Index, ghost keys: seq<seq<int>>, ghost pkKey: seq<int>)
    requires Separate(list) && |keys| == |list| && pPk in list
    requires forall i :: 0 <= i < |list| ==> (list[i].isPrimary <==> list[i] == pPk)
    requires pPk.Original(pkKey) && Converted(list, keys, pkKey, 0)
    modifies Others(list, pPk)`aiColumn, Others(list, pPk)`nColumn, Others(list, pPk)`isResized
    modifies set i | 0 <= i < |list| && list[i] != pPk :: list[i].aiColumn
    ensures Separate(list) && pPk.Original(pkKey) && Converted(list, keys, pkKey, |list|)
    ensures pPk.aiColumn == old(pPk.aiColumn)
  {
    hide Converted, Index.Original;
    for n := 0 to |list|
      invariant Separate(list) && pPk.Original(pkKey) && Converted(list, keys, pkKey, n)
      invariant pPk.aiColumn == old(pPk.aiColumn)
      invariant forall i :: n <= i < |list| ==> list[i].aiColumn == old(list[i].aiColumn)
    {
      if list[n].isPrimary {
        SkipPrimary(list, keys, pkKey, n);
        continue;
      }
      ConvertOne(list, n, pPk, keys, pkKey);
    }
  }

  ghost predicate InTable(cols: seq<int>, nCol: nat) {
    forall i :: 0 <= i < |cols| ==> 0 <= cols[i] < nCol
  }

  /** Index k alone is the primary key. */
  ghost predicate PrimaryAt(list: seq<Index>, k: nat)
    reads list
  {
    k < |list| && forall i {:trigger list[i]} :: 0 <= i < |list| ==> (list[i].isPrimary <==> i == k)
  }

  ghost predicate AllOriginal(list: seq<Index>, keys: seq<seq<int>>)
    reads list, set i | 0 <= i < |list| :: list[i].aiColumn
  {
    |keys| == |list| && forall i {:trigger list[i]} :: 0 <= i < |list| ==> list[i].Original(keys[i])
  }

  /** sqlite3PrimaryKeyIndex */
  method PrimaryKeyIndex(list: seq<Index>, ghost k: nat) returns (pk: Index)
    requires PrimaryAt(list, k)
    ensures pk == list[k]
  {
    var i := 0;
    while !list[i].isPrimary
      invariant i <= k
      decreases k - i
    {
      i := i + 1;
    }
    pk := list[i];
  }

  lemma DedupInTable(key: seq<int>, nCol: nat)
    requires InTable(key, nCol)
    ensures InTable(Dedup(key), nCol) && Distinct(Dedup(key))
  {
    DedupMeans(key);
    forall i | 0 <= i < |Dedup(key)|
      ensures 0 <= Dedup(key)[i] < nCol
    {
      assert Dedup(key)[i] in key;
    }
  }

  method DedupPrimary(list: seq<Index>, pPk: Index, ghost k: nat, ghost keys: seq<seq<int>>)
    requires Separate(list) && PrimaryAt(list, k) && list[k] == pPk && AllOriginal(list, keys) && keys[k] != []
    modifies pPk`nKeyCol, pPk`nColumn, pPk.aiColumn
    ensures Separate(list) && pPk.Original(Dedup(keys[k])) && Converted(list, keys, Dedup(keys[k]), 0)
  {
    assert pPk.Original(keys[k]);
    assert forall i {:trigger list[i]} :: 0 <= i < |list| && i != k ==>
      list[i] != pPk && list[i].aiColumn != pPk.aiColumn;
    pPk.RemoveRepeated();
  }

  /** The primary key is extended last, which leaves the other indexes as they are. */
  method CoverLast(list: seq<Index>, pPk: Index, ghost k: nat, ghost keys: seq<seq<int>>, ghost pkKey: seq<int>,
                   nCol: nat)
    requires Separate(list) && PrimaryAt(list, k) && list[k] == pPk && |keys| == |list|
    requires pPk.Original(pkKey) && Distinct(pkKey) && InTable(pkKey, nCol) && Converted(list, keys, pkKey, |list|)
    modifies pPk`aiColumn, pPk`nColumn, pPk`isResized, pPk.aiColumn
    ensures pPk.Stores(pkKey + Missing(Upto(nCol), pkKey), |pkKey|) && Converted(list, keys, pkKey, |list|)
  {
    assert forall i {:trigger list[i]} :: 0 <= i < |list| && i != k ==>
      list[i] != pPk && list[i].aiColumn != pPk.aiColumn;
    hide Separate, Missing;
    assert forall i :: 0 <= i < pPk.nKeyCol ==> pPk.aiColumn[i] == pkKey[i];
    pPk.CoverTable(nCol);
  }

  /** The key the table will have: its INTEGER PRIMARY KEY column, or the declared key without
      repetitions. */
  ghost function FinalKey(iPKey: int, declared: seq<int>): seq<int> {
    if iPKey >= 0 then [iPKey] else Dedup(declared)
  }

  // ---------------------------------------------------------------- the key of an INTEGER PRIMARY KEY table

  /** The index stands for the same constraint as a key on column x with this collation. */
  ghost predicate Twin(key: seq<int>, azColl: seq<string>, x: int, zColl: string) {
    key == [x] && azColl != [] && SameName(azColl[0], zColl)
  }

  /** Index m is the first that does; |list| if none does. */
  ghost predicate FirstTwin(list: seq<Index>, keys: seq<seq<int>>, x: int, zColl: string, m: nat)
    requires |keys| == |list|
  {
    && m <= |list| && (m < |list| ==> Twin(keys[m], list[m].azColl, x, zColl))
    && forall i {:trigger list[i]} :: 0 <= i < m ==> !Twin(keys[i], list[i].azColl, x, zColl)
  }

  /** Each index has a collation, which is a C string, for every column of its key. */
  ghost predicate Collated(list: seq<Index>, keys: seq<seq<int>>)
    requires |keys| == |list|
  {
    forall i {:trigger list[i]} :: 0 <= i < |list| ==>
      |list[i].azColl| == |keys[i]| && forall c :: c in list[i].azColl ==> NUL !in c
  }

  /** sqlite3CreateIndex looks for an equivalent constraint. */
  method FindTwin(list: seq<Index>, x: int, zColl: string, ghost keys: seq<seq<int>>) returns (m: nat)
    requires AllOriginal(list, keys) && Collated(list, keys) && NUL !in zColl
    ensures FirstTwin(list, keys, x, zColl, m)
  {
    m := 0;
    while m < |list|
      invariant m <= |list|
      invariant forall i {:trigger list[i]} :: 0 <= i < m ==> !Twin(keys[i], list[i].azColl, x, zColl)
    {
      assert list[m].Original(keys[m]);
      if list[m].nKeyCol == 1 && list[m].aiColumn[0] == x {
        var c := StrICmp(list[m].azColl[0], zColl);
        if c == 0 {
          assert keys[m] == [x];
          return;
        }
      }
      m := m + 1;
    }
  }

  /** All indexes that replace rows on conflict come after the others. */
  ghost predicate ReplaceLast(list: seq<Index>)
    reads list
  {
    forall i, j :: 0 <= i < j < |list| && list[i].onError == OE_Replace ==> list[j].onError == OE_Replace
  }

  ghost function Inserted<T>(s: seq<T>, k: nat, x: T): seq<T>
    requires k <= |s|
  {
    s[..k] + [x] + s[k..]
  }

  /** Where a new index enters the list: in front, unless it replaces on conflict and others do not. */
  method PlaceFor(list: seq<Index>, onError: nat) returns (k: nat)
    ensures k <= |list|
    ensures ReplaceLast(list) ==>
      && (onError == OE_Replace ==> forall i :: 0 <= i < k ==> list[i].onError != OE_Replace)
      && (onError == OE_Replace ==> forall i :: k <= i < |list| ==> list[i].onError == OE_Replace)
    ensures onError != OE_Replace ==> k == 0
  {
    if onError != OE_Replace || list == [] || list[0].onError == OE_Replace {
      return 0;
    }
    var pOther: nat := 0;
    while pOther + 1 < |list| && list[pOther + 1].onError != OE_Replace
      invariant pOther < |list| && forall i :: 0 <= i <= pOther ==> list[i].onError != OE_Replace
    {
      pOther := pOther + 1;
    }
    k := pOther + 1;
  }

  /** The constraints are the same but ask for different conflict handling. */
  predicate Conflicting(a: nat, b: nat) {
    a != b && a != OE_Default && b != OE_Default
  }

  ghost predicate NoPrimary(list: seq<Index>)
    reads list
  {
    forall i {:trigger list[i]} :: 0 <= i < |list| ==> !list[i].isPrimary
  }

  /** An equivalent index of the table becomes the primary key; explicit conflict handling wins over
      the default, and two different explicit ones are an error. */
  method Promote(list: seq<Index>, m: nat, keyConf: nat, ghost keys: seq<seq<int>>) returns (ok: bool)
    requires m < |list| && Separate(list) && AllOriginal(list, keys) && NoPrimary(list)
    modifies {list[m]}`isPrimary, {list[m]}`onError
    ensures ok <==> !Conflicting(old(list[m].onError), keyConf)
    ensures PrimaryAt(list, m) && AllOriginal(list, keys)
    ensures list[m].onError == if old(list[m].onError) == OE_Default then keyConf else old(list[m].onError)
  {
    var pIdx := list[m];
    ok := true;
    if pIdx.onError != keyConf {
      if !(pIdx.onError == OE_Default || keyConf == OE_Default) {
        ok := false;
      }
      if pIdx.onError == OE_Default {
        pIdx.onError := keyConf;
      }
    }
    pIdx.isPrimary := true;
    forall i {:trigger list[i]} | 0 <= i < |list| ensures list[i].Original(keys[i]) {
      assert old(list[i].Original(keys[i]));
    }
  }

  /** A new index becomes the primary key and enters the list at place k. */
  method AddKey(t: Table, keyConf: nat, zColl: string, ghost keys: seq<seq<int>>) returns (pPk: Index, ghost k: nat)
    requires Separate(t.pIndex) && AllOriginal(t.pIndex, keys) && NoPrimary(t.pIndex)
    modifies t`pIndex
    ensures fresh(pPk) && fresh(pPk.aiColumn) && k <= |keys| == |old(t.pIndex)|
    ensures pPk.onError == keyConf && pPk.azColl == [zColl]
    ensures t.pIndex == Inserted(old(t.pIndex), k, pPk)
    ensures PrimaryAt(t.pIndex, k) && Separate(t.pIndex) && AllOriginal(t.pIndex, Inserted(keys, k, [t.iPKey]))
    ensures old(ReplaceLast(t.pIndex)) ==> ReplaceLast(t.pIndex)
  {
    hide Separate, NoPrimary, ReplaceLast, PrimaryAt, Index.Original;
    ghost var list := t.pIndex;
    ghost var key := [t.iPKey];
    pPk := new Index([t.iPKey], [zColl], keyConf, true);
    var at := PlaceFor(t.pIndex, keyConf);
    k := at;
    assert forall i {:trigger list[i]} :: 0 <= i < |list| ==>
      list[i].Original(keys[i]) && list[i].aiColumn != pPk.aiColumn && list[i] != pPk;
    assert AllOriginal(list, keys);
    assert NoPrimary(list);
    assert Separate(list);
    t.pIndex := t.pIndex[..at] + [pPk] + t.pIndex[at..];
    PrimaryInserted(list, k, pPk, keys, key);
    SeparateInserted(list, k, pPk);
    if old(ReplaceLast(t.pIndex)) { LastInserted(list, k, pPk); }
  }

  lemma InsertedAt<T>(s: seq<T>, k: nat, x: T)
    requires k <= |s|
    ensures var r := Inserted(s, k, x);
      |r| == |s| + 1 && forall i {:trigger r[i]} :: 0 <= i < |r| ==>
        r[i] == if i < k then s[i] else if i == k then x else s[i - 1]
  {
  }

  lemma PrimaryInserted(list: seq<Index>, k: nat, pPk: Index, keys: seq<seq<int>>, key: seq<int>)
    requires AllOriginal(list, keys) && NoPrimary(list) && pPk.Original(key) && pPk.isPrimary && k <= |list|
    ensures PrimaryAt(Inserted(list, k, pPk), k) && AllOriginal(Inserted(list, k, pPk), Inserted(keys, k, key))
  {
    hide Index.Original;
    InsertedAt(list, k, pPk);
    InsertedAt(keys, k, key);
  }

  lemma SeparateInserted(list: seq<Index>, k: nat, pPk: Index)
    requires Separate(list) && k <= |list| && forall i {:trigger list[i]} :: 0 <= i < |list| ==>
      list[i] != pPk && list[i].aiColumn != pPk.aiColumn
    ensures Separate(Inserted(list, k, pPk))
  {
    InsertedAt(list, k, pPk);
  }

  lemma LastInserted(list: seq<Index>, k: nat, pPk: Index)
    requires ReplaceLast(list) && k <= |list|
    requires if pPk.onError != OE_Replace then k == 0
      else forall i :: 0 <= i < |list| ==> (list[i].onError == OE_Replace <==> i >= k)
    ensures ReplaceLast(Inserted(list, k, pPk))
  {
    InsertedAt(list, k, pPk);
  }

  /** What becomes of the list: an equivalent index stays where it is, a new one comes in at place k. */
  ghost predicate KeyPlaced(list: seq<Index>, list': seq<Index>, pPk: Index?, x: int, zColl: string,
                            keys: seq<seq<int>>, keys': seq<seq<int>>, k: nat)
    requires |keys| == |list|
  {
    if FirstTwin(list, keys, x, zColl, |list|) then
      pPk != null && k <= |list| && list' == Inserted(list, k, pPk) && keys' == Inserted(keys, k, [x])
    else
      list' == list && keys' == keys && k < |list| && FirstTwin(list, keys, x, zColl, k)
  }

  /** An index on the INTEGER PRIMARY KEY column becomes the primary key: an equivalent UNIQUE index of
      the table if there is one, or else a new index. Nothing is returned when the two ask for
      different conflict handling. */
  method MakeKey(t: Table, keyConf: nat, zColl: string, ghost keys: seq<seq<int>>)
    returns (pPk: Index?, ghost keys': seq<seq<int>>, ghost k: nat)
    requires Separate(t.pIndex) && AllOriginal(t.pIndex, keys) && 0 <= t.iPKey < t.nCol
    requires NoPrimary(t.pIndex) && Collated(t.pIndex, keys) && NUL !in zColl
    modifies t, t.pIndex`isPrimary, t.pIndex`onError
    ensures KeyPlaced(old(t.pIndex), t.pIndex, pPk, old(t.iPKey), zColl, keys, keys', k)
    ensures |keys'| == |t.pIndex| && PrimaryAt(t.pIndex, k) && keys'[k] == [old(t.iPKey)]
    ensures Separate(t.pIndex) && AllOriginal(t.pIndex, keys')
    ensures FirstTwin(old(t.pIndex), keys, old(t.iPKey), zColl, |keys|) ==>
      fresh(pPk) && fresh(pPk.aiColumn) && (old(ReplaceLast(t.pIndex)) ==> ReplaceLast(t.pIndex))
    ensures !FirstTwin(old(t.pIndex), keys, old(t.iPKey), zColl, |keys|) ==>
      && (pPk == null <==> Conflicting(old(t.pIndex[k].onError), keyConf))
      && t.pIndex[k].onError == (if old(t.pIndex[k].onError) == OE_Default then keyConf else old(t.pIndex[k].onError))
    ensures if pPk == null then t.iPKey == old(t.iPKey) else t.iPKey < 0 && t.pIndex[k] == pPk
    ensures forall x {:trigger x in old(t.pIndex)} :: x in old(t.pIndex) && x != pPk ==> x.onError == old(x.onError)
    ensures pPk != null && pPk !in old(t.pIndex) ==> pPk.onError == keyConf && pPk.azColl == [zColl]
    ensures pPk != null && pPk in old(t.pIndex) ==>
      pPk.onError == if old(pPk.onError) == OE_Default then keyConf else old(pPk.onError)
    ensures forall i {:trigger t.pIndex[i]} :: 0 <= i < |t.pIndex| ==>
      t.pIndex[i] in old(t.pIndex) || (fresh(t.pIndex[i]) && fresh(t.pIndex[i].aiColumn))
  {
    hide PrimaryAt, ReplaceLast, NoPrimary, Index.Original, SameName;
    var m := FindTwin(t.pIndex, t.iPKey, zColl, keys);
    if m < |t.pIndex| {
      keys', k := keys, m;
      var ok := Promote(t.pIndex, m, keyConf, keys);
      if !ok {
        return null, keys', k;
      }
      pPk := t.pIndex[m];
    } else {
      pPk, k := AddKey(t, keyConf, zColl, keys);
      keys' := Inserted(keys, k, [t.iPKey]);
    }
    t.iPKey := -1;
  }

  // ---------------------------------------------------------------- the whole conversion

  lemma OriginalConverts(list: seq<Index>, keys: seq<seq<int>>, k: nat, pkKey: seq<int>)
    requires AllOriginal(list, keys) && PrimaryAt(list, k)
    ensures Converted(list, keys, pkKey, 0) && list[k].Original(keys[k])
  {
  }

  lemma PrimaryIs(list: seq<Index>, k: nat)
    requires Separate(list) && PrimaryAt(list, k)
    ensures list[k] in list && forall i :: 0 <= i < |list| ==> (list[i].isPrimary <==> list[i] == list[k])
  {
  }

  lemma OneColumn(x: int, nCol: nat)
    requires 0 <= x < nCol
    ensures Distinct([x]) && InTable([x], nCol)
  {
  }

  /** The columns of all indexes, once the primary key is known. */
  method ConvertColumns(list: seq<Index>, pPk: Index, ghost k: nat, ghost keys: seq<seq<int>>, ghost pkKey: seq<int>,
                        nCol: nat)
    requires Separate(list) && PrimaryAt(list, k) && list[k] == pPk && |keys| == |list|
    requires pPk.Original(pkKey) && Distinct(pkKey) && InTable(pkKey, nCol) && Converted(list, keys, pkKey, 0)
    modifies list`aiColumn, list`nColumn, list`isResized, set i | 0 <= i < |list| :: list[i].aiColumn
    ensures PrimaryAt(list, k) && Converted(list, keys, pkKey, |list|)
    ensures pPk.Stores(pkKey + Missing(Upto(nCol), pkKey), |pkKey|)
  {
    hide Converted, Separate, InTable, Distinct, Missing, Index.Original, Index.Stores;
    PrimaryIs(list, k);
    ConvertOthers(list, pPk, keys, pkKey);
    CoverLast(list, pPk, k, keys, pkKey, nCol);
  }

  /** The column lists of convertToWithoutRowidTable. */
  method ConvertToWithoutRowidTable(t: Table, keyConf: nat, zColl: string, ghost keys: seq<seq<int>>, ghost k: nat)
    returns (pPk: Index?, ghost keys': seq<seq<int>>, ghost k': nat)
    requires Separate(t.pIndex) && AllOriginal(t.pIndex, keys) && t.iPKey < t.nCol && NUL !in zColl
    requires
      if t.iPKey >= 0 then NoPrimary(t.pIndex) && Collated(t.pIndex, keys)
      else PrimaryAt(t.pIndex, k) && keys[k] != [] && InTable(keys[k], t.nCol)
    modifies t, t.pIndex, set i | 0 <= i < |t.pIndex| :: t.pIndex[i].aiColumn
    ensures if old(t.iPKey) >= 0 then KeyPlaced(old(t.pIndex), t.pIndex, pPk, old(t.iPKey), zColl, keys, keys', k')
      else t.pIndex == old(t.pIndex) && keys' == keys && k' == k
    ensures pPk == null <==>
      (old(t.iPKey) >= 0 && !FirstTwin(old(t.pIndex), keys, old(t.iPKey), zColl, |keys|)
       && Conflicting(old(t.pIndex[k'].onError), keyConf))
    ensures |keys'| == |t.pIndex| && PrimaryAt(t.pIndex, k')
    ensures forall x {:trigger x in old(t.pIndex)} :: x in old(t.pIndex) && x != pPk ==> x.onError == old(x.onError)
    ensures pPk != null && pPk !in old(t.pIndex) ==> pPk.onError == keyConf && pPk.azColl == [zColl]
    ensures pPk != null && pPk in old(t.pIndex) ==>
      pPk.onError == if old(t.iPKey) >= 0 && old(pPk.onError) == OE_Default then keyConf else old(pPk.onError)
    ensures pPk != null ==> var pkKey := FinalKey(old(t.iPKey), keys'[k']);
      && t.iPKey < 0 && t.pIndex[k'] == pPk
      && pPk.Stores(pkKey + Missing(Upto(t.nCol), pkKey), |pkKey|)
      && Converted(t.pIndex, keys', pkKey, |t.pIndex|)
  {
    hide Converted, Separate, InTable, Distinct, Missing, Dedup, Index.Original, Index.Stores;
    hide FirstTwin, KeyPlaced, SameName;
    ghost var pkKey := [t.iPKey];
    if t.iPKey >= 0 {
      pPk, keys', k' := MakeKey(t, keyConf, zColl, keys);
      if pPk == null {
        return;
      }
      OriginalConverts(t.pIndex, keys', k', pkKey);
      OneColumn(pkKey[0], t.nCol);
    } else {
      pPk := PrimaryKeyIndex(t.pIndex, k);
      keys', k', pkKey := keys, k, Dedup(keys[k]);
      DedupInTable(keys[k], t.nCol);
      DedupPrimary(t.pIndex, pPk, k, keys);
    }
    ConvertColumns(t.pIndex, pPk, k', keys', pkKey, t.nCol);
  }

  /** The primary key then lists every column of the table exactly once. */
  lemma PrimaryKeyCovers(declared: seq<int>, nCol: nat)
    requires InTable(declared, nCol)
    ensures var cols := Dedup(declared) + Missing(Upto(nCol), Dedup(declared));
      |cols| == nCol && Distinct(cols) && forall x :: 0 <= x < nCol <==> x in cols
  {
    DedupInTable(declared, nCol);
    CoverSize(Dedup(declared), nCol);
    MissingMeans(Upto(nCol), Dedup(declared));
    forall x
      ensures x in Upto(nCol) <==> 0 <= x < nCol
    {
      UptoHas(nCol, x);
    }
  }

  /** Every other index then holds its own key in front, all columns of the primary key, and nothing
      else; what is added is new. */
  lemma OtherIndexFindsRows(key: seq<int>, pkKey: seq<int>)
    requires Distinct(pkKey)
    ensures var cols := key + Missing(pkKey, key);
      && cols[..|key|] == key
      && (forall x :: x in cols <==> x in key || x in pkKey)
      && Distinct(cols[|key|..]) && (forall x :: x in cols[|key|..] ==> x !in key)
  {
    MissingMeans(pkKey, key);
    assert (key + Missing(pkKey, key))[|key|..] == Missing(pkKey, key);
  }
}
