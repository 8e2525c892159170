/** Dropping a table: the order in which its root pages are destroyed, and what auto-vacuum moves. */
module DestroyTable {

  predicate Decreasing(s: seq<nat>) {
    forall i, j :: 0 <= i < j < |s| ==> s[i] > s[j]
  }

  /** The root pages of a table and its indexes; 0 stands for none. */
  ghost function Roots(tnum: nat, indexes: seq<nat>): set<nat> {
    (set i | 0 <= i < |indexes| :: indexes[i]) + {tnum} - {0}
  }

  /** The roots still to be destroyed: all of them before the first, then those below the last. */
  ghost predicate Pending(r: nat, iDestroyed: nat) {
    iDestroyed == 0 || r < iDestroyed
  }

  /** The inner loop: the largest pending root, 0 when there is none. */
  method Largest(iTab: nat, indexes: seq<nat>, iDestroyed: nat) returns (iLargest: nat)
    ensures iLargest != 0 ==> iLargest in Roots(iTab, indexes) && Pending(iLargest, iDestroyed)
    ensures forall r :: r in Roots(iTab, indexes) && Pending(r, iDestroyed) ==> r <= iLargest
  {
    iLargest := 0;
    if iDestroyed == 0 || iTab < iDestroyed {
      iLargest := iTab;
    }
    for i := 0 to |indexes|
      invariant iLargest != 0 ==> (iLargest == iTab || iLargest in indexes[..i]) && Pending(iLargest, iDestroyed)
      invariant Pending(iTab, iDestroyed) ==> iTab <= iLargest
      invariant forall k :: 0 <= k < i && Pending(indexes[k], iDestroyed) ==> indexes[k] <= iLargest
    {
      var iIdx := indexes[i];
      if (iDestroyed == 0 || iIdx < iDestroyed) && iIdx > iLargest {
        iLargest := iIdx;
      }
    }
  }

  /** The roots from the largest down to the last destroyed. */
  ghost predicate Progress(destroyed: seq<nat>, roots: set<nat>, last: nat) {
    && Decreasing(destroyed)
    && last == (if destroyed == [] then 0 else destroyed[|destroyed| - 1])
    && (forall i :: 0 <= i < |destroyed| ==> destroyed[i] in roots && destroyed[i] >= last)
    && (forall r :: r in roots ==> r in destroyed || Pending(r, last))
  }

  lemma ProgressStep(destroyed: seq<nat>, roots: set<nat>, last: nat, next: nat)
    requires Progress(destroyed, roots, last) && 0 !in roots && next in roots && Pending(next, last)
    requires forall r :: r in roots && Pending(r, last) ==> r <= next
    ensures Progress(destroyed + [next], roots, next)
  {
    assert forall i :: 0 <= i < |destroyed| ==> destroyed[i] > next;
    forall r | r in roots
      ensures r in destroyed + [next] || Pending(r, next)
    {
    }
  }

  lemma ProgressEnd(destroyed: seq<nat>, roots: set<nat>, last: nat)
    requires Progress(destroyed, roots, last) && forall r :: r in roots ==> !Pending(r, last)
    ensures Decreasing(destroyed) && (set r | r in destroyed) == roots
  {
  }

  /** destroyTable: each distinct root is destroyed exactly once, the largest first. */
  method DestroyTable(tnum: nat, indexes: seq<nat>) returns (destroyed: seq<nat>)
    ensures Decreasing(destroyed)
    ensures (set r | r in destroyed) == Roots(tnum, indexes)
  {
    var iDestroyed := 0;
    destroyed := [];
    ghost var roots := Roots(tnum, indexes);
    ghost var bound := Largest(tnum, indexes, 0);
    assert 0 !in roots;
    hide Roots;
    while true
      invariant Progress(destroyed, roots, iDestroyed)
      invariant iDestroyed <= bound && (iDestroyed == 0 <==> destroyed == [])
      decreases if iDestroyed == 0 then bound + 1 else iDestroyed
    {
      var iLargest := Largest(tnum, indexes, iDestroyed);
      if iLargest == 0 {
        ProgressEnd(destroyed, roots, iDestroyed);
        return;
      }
      ProgressStep(destroyed, roots, iDestroyed, iLargest);
      assert iLargest <= bound;
      destroyed := destroyed + [iLargest];
      iDestroyed := iLargest;
    }
  }

  // ---------------------------------------------------------------- what auto-vacuum does

  /** The root pages of a database, each with the b-tree it belongs to. */
  type Database = map<nat, nat>

  ghost predicate IsMax(db: Database, m: nat) {
    m in db && forall r :: r in db ==> r <= m
  }

  lemma {:induction false} HasMax(s: set<nat>, r: nat) returns (m: nat)
    requires r in s
    ensures m in s && forall x :: x in s ==> x <= m
    decreases s
  {
    if forall x :: x in s ==> x <= r {
      m := r;
    } else {
      var x :| x in s && x > r;
      m := HasMax(s - {r}, x);
      assert forall y :: y in s ==> y == r || y in s - {r};
    }
  }

  /** The largest root of a database that has a root r. */
  ghost function MaxRoot(db: Database, r: nat): (m: nat)
    requires r in db
    ensures IsMax(db, m)
  {
    MaxExists(db, r);
    var m: nat :| IsMax(db, m);
    m
  }

  lemma MaxExists(db: Database, r: nat)
    requires r in db
    ensures exists m: nat :: IsMax(db, m)
  {
    var m := HasMax(db.Keys, r);
    assert IsMax(db, m);
  }

  /** OP_Destroy of root r under auto-vacuum: the b-tree with the largest root moves into r. */
  ghost function Destroy(db: Database, r: nat): Database
    requires r in db
  {
    var max := MaxRoot(db, r);
    if r == max then db - {r} else (db - {max})[r := db[max]]
  }

  /** Destroying the roots in order never moves a root whose turn is yet to come. */
  ghost predicate Safe(db: Database, order: seq<nat>) {
    order == [] ||
    (order[0] in db
     && (MaxRoot(db, order[0]) == order[0] || MaxRoot(db, order[0]) !in order[1..])
     && Safe(Destroy(db, order[0]), order[1..]))
  }

  ghost predicate Holds(db: Database, order: seq<nat>) {
    forall i :: 0 <= i < |order| ==> order[i] in db
  }

  /** What is left after destroying in order. */
  ghost function Remaining(db: Database, order: seq<nat>): Database
    requires Safe(db, order)
  {
    if order == [] then db else Remaining(Destroy(db, order[0]), order[1..])
  }

  /** Largest first is safe in every database. */
  lemma {:induction false} DecreasingIsSafe(db: Database, order: seq<nat>)
    requires Decreasing(order) && Holds(db, order)
    ensures Safe(db, order)
    decreases order
  {
    if order != [] {
      var rest := order[1..];
      var max := MaxRoot(db, order[0]);
      forall i | 0 <= i < |rest|
        ensures rest[i] in Destroy(db, order[0]) && rest[i] != max
      {
        assert rest[i] == order[i + 1];
      }
      DecreasingIsSafe(Destroy(db, order[0]), rest);
    }
  }

  /** The smallest database with these roots. */
  ghost function Only(order: seq<nat>): Database {
    map r | r in order :: r
  }

  /** Any other order is unsafe in a database that has these roots alone. */
  lemma {:induction false} OtherOrderIsUnsafe(order: seq<nat>, db: Database)
    requires db.Keys == set r | r in order
    requires forall i, j :: 0 <= i < j < |order| ==> order[i] != order[j]
    requires !Decreasing(order)
    ensures !Safe(db, order)
    decreases order
  {
    var rest := order[1..];
    assert order[0] in db;
    var max := MaxRoot(db, order[0]);
    if max == order[0] {
      KeysLeft(order, db);
      assert !Decreasing(rest) by {
        var i, j :| 0 <= i < j < |order| && order[i] <= order[j];
        assert order[j] in db;
        assert i > 0;
        assert rest[i - 1] == order[i] && rest[j - 1] == order[j];
      }
      OtherOrderIsUnsafe(rest, Destroy(db, order[0]));
    } else {
      assert max in order;
      assert max in rest;
    }
  }

  lemma KeysLeft(order: seq<nat>, db: Database)
    requires order != [] && db.Keys == (set r | r in order) && order[0] in db && MaxRoot(db, order[0]) == order[0]
    requires forall i, j :: 0 <= i < j < |order| ==> order[i] != order[j]
    ensures Destroy(db, order[0]).Keys == set r | r in order[1..]
  {
    var rest := order[1..];
    forall r
      ensures r in Destroy(db, order[0]) <==> r in rest
    {
      if r in rest {
        var i :| 0 <= i < |rest| && rest[i] == r;
        assert order[i + 1] == r;
      }
    }
  }

  /** An order of distinct roots is safe in every database exactly when it is largest first. */
  lemma SafeOrders(order: seq<nat>)
    requires forall i, j :: 0 <= i < j < |order| ==> order[i] != order[j]
    ensures (forall db :: Holds(db, order) ==> Safe(db, order)) <==> Decreasing(order)
  {
    if Decreasing(order) {
      forall db | Holds(db, order)
        ensures Safe(db, order)
      {
        DecreasingIsSafe(db, order);
      }
    } else {
      var db := Only(order);
      assert Holds(db, order);
      OtherOrderIsUnsafe(order, db);
    }
  }

  /** The case the code warns of: destroying 4 moves root 5, the largest, before its turn. */
  lemma AscendingFails(db: Database)
    requires 4 in db && IsMax(db, 5)
    ensures !Safe(db, [4, 5]) && Safe(db, [5, 4])
  {
    assert MaxRoot(db, 4) == 5;
    assert [4, 5][1..] == [5];
    DecreasingIsSafe(db, [5, 4]);
  }

  // ---------------------------------------------------------------- what is left, and where

  /** Every b-tree has one root. */
  ghost predicate OneRootEach(db: Database) {
    forall r, q :: r in db && q in db && r != q ==> db[r] != db[q]
  }

  /** In a safe order exactly the b-trees that stood at the given roots when the dropping began are
      destroyed; every other one survives, wherever it has been moved. */
  lemma {:induction false} DestroysTheRightTrees(db: Database, order: seq<nat>)
    requires Safe(db, order) && OneRootEach(db) && Holds(db, order)
    requires forall i, j :: 0 <= i < j < |order| ==> order[i] != order[j]
    ensures OneRootEach(Remaining(db, order))
    ensures forall t :: t in Remaining(db, order).Values <==>
      t in db.Values && forall i :: 0 <= i < |order| ==> t != db[order[i]]
    decreases order
  {
    if order != [] {
      var rest := order[1..];
      var db' := Destroy(db, order[0]);
      forall i | 0 <= i < |rest|
        ensures rest[i] in db' && db'[rest[i]] == db[rest[i]]
      {
        assert rest[i] == order[i + 1];
      }
      OneDestroyed(db, order[0]);
      DestroysTheRightTrees(db', rest);
      forall t
        ensures t in Remaining(db', rest).Values <==>
          t in db.Values && forall i :: 0 <= i < |order| ==> t != db[order[i]]
      {
        assert forall i :: 0 <= i < |rest| ==> rest[i] == order[i + 1];
        assert forall i :: 0 < i < |order| ==> order[i] == rest[i - 1];
      }
    }
  }

  lemma OneDestroyed(db: Database, r: nat)
    requires OneRootEach(db) && r in db
    ensures OneRootEach(Destroy(db, r))
    ensures forall t :: t in Destroy(db, r).Values <==> t in db.Values && t != db[r]
  {
    var max := MaxRoot(db, r);
    var db' := Destroy(db, r);
    forall a, b | a in db' && b in db' && a != b
      ensures db'[a] != db'[b]
    {
      var a0, b0 := if a == r then max else a, if b == r then max else b;
      assert db[a0] != db[b0];
    }
    forall t
      ensures t in db'.Values <==> t in db.Values && t != db[r]
    {
      if t in db.Values && t != db[r] {
        var q :| q in db && db[q] == t;
        assert db'[if q == max then r else q] == t;
      }
    }
  }

  /** Dropping a table, in the order destroyTable finds: nothing pending ever moves, and exactly the
      b-trees of the table and its indexes are gone. */
  lemma DropDestroysTheTable(db: Database, tnum: nat, indexes: seq<nat>, destroyed: seq<nat>)
    requires OneRootEach(db) && forall r :: r in Roots(tnum, indexes) ==> r in db
    requires Decreasing(destroyed) && (set r | r in destroyed) == Roots(tnum, indexes)
    ensures Safe(db, destroyed)
    ensures forall t :: t in Remaining(db, destroyed).Values <==>
      t in db.Values && forall r :: r in Roots(tnum, indexes) ==> t != db[r]
  {
    forall i | 0 <= i < |destroyed|
      ensures destroyed[i] in Roots(tnum, indexes)
    {
      assert destroyed[i] in set r | r in destroyed;
    }
    hide Roots;
    DecreasingIsSafe(db, destroyed);
    DestroysTheRightTrees(db, destroyed);
    forall t | t in db.Values
      ensures (forall i :: 0 <= i < |destroyed| ==> t != db[destroyed[i]]) <==>
        forall r :: r in Roots(tnum, indexes) ==> t != db[r]
    {
      forall r | r in Roots(tnum, indexes)
        ensures exists i :: 0 <= i < |destroyed| && destroyed[i] == r
      {
        assert r in set q | q in destroyed;
      }
    }
  }

  /** A table or index of the schema; tree is the b-tree it is stored in. */
  class SchemaObject {
    var tnum: nat
    ghost const tree: nat

    constructor (tnum: nat, ghost tree: nat)
      ensures this.tnum == tnum && this.tree == tree
    {
      this.tnum, this.tree := tnum, tree;
    }

    /** The schema knows where the b-tree is. */
    ghost predicate InSync(db: Database)
      reads this
    {
      tnum in db && db[tnum] == tree
    }
  }

  function MovedTo(tnum: nat, iFrom: nat, iTo: nat): nat {
    if tnum == iFrom then iTo else tnum
  }

  /** One of the two loops of sqlite3RootPageMoved. */
  method MoveAll(objects: seq<SchemaObject>, iFrom: nat, iTo: nat)
    modifies objects
    ensures forall o :: o in objects ==> o.tnum == MovedTo(old(o.tnum), iFrom, iTo)
  {
    for i := 0 to |objects|
      invariant forall o :: o in objects ==>
        o.tnum == if o in objects[..i] then MovedTo(old(o.tnum), iFrom, iTo) else old(o.tnum)
    {
      var o := objects[i];
      assert objects[..i + 1] == objects[..i] + [o];
      if o.tnum == iFrom {
        o.tnum := iTo;
      }
    }
  }

  /** sqlite3RootPageMoved: every table and index at iFrom is now at iTo, the dropped ones included;
      whatever the schema knew before the move, it knows after. */
  method RootPageMoved(tables: seq<SchemaObject>, indexes: seq<SchemaObject>, iFrom: nat, iTo: nat, ghost db: Database)
    requires iTo in db && iFrom == MaxRoot(db, iTo) && iTo != iFrom
    modifies tables, indexes
    ensures forall o :: o in tables || o in indexes ==> o.tnum == MovedTo(old(o.tnum), iFrom, iTo)
    ensures forall o :: (o in tables || o in indexes) && old(o.InSync(db)) && old(o.tnum) != iTo ==>
      o.InSync(Destroy(db, iTo))
  {
    MoveAll(tables, iFrom, iTo);
    MoveAll(indexes, iFrom, iTo);
  }
}
