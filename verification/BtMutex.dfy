/** The Btree mutex routines as one thread runs them, over the Btree, BtShared and sqlite3 objects, while
    other threads take and give back mutexes that this one does not own. What the routines do to mutexes
    is what a connection of BtMutexProtocol does. */
module BtMutex {
  import opened BtMutexOps
  import P = BtMutexProtocol

  /** The part of a database that connections can share; addr is its address. */
  class BtShared {
    const addr: int
    var owner: Connection?    // the connection whose thread holds the mutex
    var db: Connection?

    constructor (addr: int)
      ensures this.addr == addr && owner == null && db == null
    {
      this.addr := addr;
      owner, db := null, null;
    }
  }

  /** A connection's handle on one database. */
  class Btree {
    const db: Connection
    const pBt: BtShared
    const sharable: bool
    var locked: bool
    var wantToLock: nat
    const pNext: Btree?       // the sharable Btree to lock after this one

    constructor (db: Connection, pBt: BtShared, sharable: bool, pNext: Btree?)
      ensures this.db == db && this.pBt == pBt && this.sharable == sharable && this.pNext == pNext
      ensures !locked && wantToLock == 0
    {
      this.db, this.pBt, this.sharable, this.pNext := db, pBt, sharable, pNext;
      locked, wantToLock := false, 0;
    }

    /** Whether this handle holds the mutex, seen from locked, from the mutex and from BtShared.db. */
    ghost predicate Fits(held: bool)
      reads this, pBt
    {
      locked == held && (pBt.owner == db) == held && (held ==> pBt.db == db)
    }

    /** The first lines of btreeLockCarefully: takes the mutex if sqlite3_mutex_try gets it. */
    method TryBtreeMutex() returns (ok: bool)
      requires Fits(false) && db.mutexHeld && pBt in db.shareds
      modifies this`locked, db.shareds, db`ops
      ensures Fits(ok) && db.ops == old(db.ops) + [Try(pBt.addr, ok)]
      ensures forall s {:trigger s in db.shareds} :: s in db.shareds && s != pBt ==>
        db.Keeps(s, old(s.owner), old(s.db))
    {
      db.Meanwhile();
      ok := pBt.owner == null;
      if ok {
        pBt.owner := db;
        pBt.db := db;
        locked := true;
      }
      db.ops := db.ops + [Try(pBt.addr, ok)];
    }

    /** lockBtreeMutex: waits for the mutex, which is allowed only while no mutex of larger address is held. */
    method LockBtreeMutex()
      requires Fits(false) && db.mutexHeld && pBt in db.shareds && db.HoldsNoneAfter(pBt.addr)
      modifies this`locked, db.shareds, db`ops
      ensures Fits(true) && db.ops == old(db.ops) + [Enter(pBt.addr)]
      ensures forall s {:trigger s in db.shareds} :: s in db.shareds && s != pBt ==>
        db.Keeps(s, old(s.owner), old(s.db))
    {
      db.Meanwhile();
      pBt.owner := db;
      pBt.db := db;
      locked := true;
      db.ops := db.ops + [Enter(pBt.addr)];
    }

    method UnlockBtreeMutex()
      requires Fits(true) && db.mutexHeld
      modifies this`locked, pBt, db`ops
      ensures Fits(false) && pBt.owner == null && db.ops == old(db.ops) + [Leave(pBt.addr)]
    {
      assert pBt.db == db;
      pBt.owner := null;
      locked := false;
      db.ops := db.ops + [Leave(pBt.addr)];
    }
  }

  /** A database connection: its open databases, and its sharable Btrees in locking order. */
  class Connection {
    var aDb: seq<Btree?>
    var noSharedCache: bool
    var mutexHeld: bool
    ghost var list: seq<Btree>
    ghost var trees: set<Btree>
    ghost var shareds: set<BtShared>
    ghost var ops: seq<Op>    // what this connection has done to mutexes

    constructor ()
      ensures aDb == [] && list == [] && trees == {} && shareds == {} && ops == [] && !noSharedCache && !mutexHeld
    {
      aDb, list, trees, shareds, ops, noSharedCache, mutexHeld := [], [], {}, {}, [], false, false;
    }

    /** What other threads may do to a BtShared: nothing while this connection owns its mutex, and never
        make it the owner. */
    ghost predicate Keeps(s: BtShared, owner: Connection?, db: Connection?)
      reads s
    {
      (s.owner == this <==> owner == this) && (owner == this ==> s.db == db)
    }

    /** What other threads do before this one goes on; here nothing, but only what Keeps says may be
        relied on. */
    method Meanwhile()
      modifies shareds
      ensures forall s {:trigger s in shareds} :: s in shareds ==> Keeps(s, old(s.owner), old(s.db))
    {
    }

    /** No Btree of the list with a larger address has its mutex held by this connection. */
    ghost predicate HoldsNoneAfter(a: int)
      reads this`list, list, set i | 0 <= i < |list| :: list[i].pBt
    {
      forall i {:trigger list[i]} :: 0 <= i < |list| && list[i].pBt.addr > a ==> list[i].pBt.owner != this
    }

    /** The record of this connection in the protocol, between calls. */
    ghost function Record(): (l: P.Local)
      reads this`list, list
      ensures |l.list| == |l.want| == |l.locked| == |list|
      ensures forall i {:trigger list[i]} :: 0 <= i < |list| ==>
        l.list[i] == list[i].pBt.addr && l.want[i] == list[i].wantToLock && l.locked[i] == list[i].locked
    {
      var s := list;
      P.Local(seq(|s|, i requires 0 <= i < |s| => s[i].pBt.addr),
              seq(|s|, i requires 0 <= i < |s| reads s => s[i].wantToLock),
              seq(|s|, i requires 0 <= i < |s| reads s => s[i].locked), P.Idle)
    }

    /** The pNext list: the sharable Btrees of this connection by increasing BtShared address. */
    ghost predicate Listed()
      reads this`list, this`trees, this`shareds
    {
      && (forall i {:trigger list[i]} :: 0 <= i < |list| ==>
           list[i].sharable && list[i].db == this && list[i] in trees && list[i].pBt in shareds)
      && (forall i {:trigger list[i].pNext} :: 0 <= i < |list| ==>
           list[i].pNext == if i + 1 < |list| then list[i + 1] else null)
      && (forall i, j :: 0 <= i < j < |list| ==> list[i].pBt.addr < list[j].pBt.addr)
    }

    /** Between calls: every listed handle holds its mutex exactly when it is wanted. */
    ghost predicate Settled()
      reads this`list, this`trees, this`shareds, this`mutexHeld, trees, shareds
    {
      && Listed() && mutexHeld
      && forall i {:trigger list[i]} :: 0 <= i < |list| ==> list[i].Fits(list[i].wantToLock > 0)
    }

    ghost predicate Handles(p: Btree)
      reads this`list, this`trees, p
    {
      p.db == this && (p.sharable <==> p in list) && (!p.sharable ==> p !in trees && p.wantToLock == 0 && !p.locked)
    }

    lemma HandleAt(k: nat)
      requires Settled() && k < |list|
      ensures list[k].sharable && list[k].db == this && list[k].pBt in shareds
      ensures list[k].Fits(list[k].wantToLock > 0)
    {
    }

    ghost function IndexOf(p: Btree): (k: nat)
      requires p in list
      reads this`list
      ensures k < |list| && list[k] == p
    {
      var k: nat :| k < |list| && list[k] == p;
      k
    }

    lemma Apart(i: nat, j: nat)
      requires Listed() && i < |list| && j < |list| && i != j
      ensures list[i] != list[j] && list[i].pBt != list[j].pBt
    {
      if i < j {
        assert list[i].pBt.addr < list[j].pBt.addr;
      } else {
        assert list[j].pBt.addr < list[i].pBt.addr;
      }
    }

    /** While the mutex of list[k] is being taken: j tells how far the later ones have been given up
        or, the other way round, taken back. */
    ghost predicate Paused(k: nat, j: nat, mine: bool, releasing: bool)
      reads this, trees, shareds
      requires k < |list|
    {
      && Listed() && mutexHeld
      && (forall i {:trigger list[i]} :: 0 <= i < |list| ==>
           list[i].Fits(if i < k then list[i].wantToLock > 0 else if i == k then mine
                        else (if releasing then i >= j else i < j) && list[i].wantToLock > 0))
    }

    lemma PausedListed(k: nat, j: nat, mine: bool, releasing: bool)
      requires k < |list| && Paused(k, j, mine, releasing)
      ensures Listed()
    {
    }

    lemma LaterNotHeld(k: nat, j: nat, mine: bool, releasing: bool, i: nat)
      requires k < |list| && Paused(k, j, mine, releasing) && k <= i < |list|
      requires if releasing then j == |list| else j == i
      ensures HoldsNoneAfter(list[i].pBt.addr) && list[i].pBt in shareds
    {
    }

    /** The addresses in l are those of the list. */
    ghost predicate Addressed(l: P.Local)
      reads this`list
    {
      && |l.list| == |l.want| == |l.locked| == |list|
      && forall i {:trigger list[i]} :: 0 <= i < |list| ==> l.list[i] == list[i].pBt.addr
    }

    ghost predicate WantsAs(l: P.Local)
      reads this`list, list`wantToLock
    {
      |l.want| == |list| && forall i {:trigger list[i]} :: 0 <= i < |list| ==> l.want[i] == list[i].wantToLock
    }

    ghost predicate LockedAs(l: P.Local, j: nat)
      reads this`list, list`locked
    {
      |l.locked| == |list| && forall i {:trigger list[i]} :: j <= i < |list| ==> l.locked[i] == list[i].locked
    }

    ghost predicate Recorded(l: P.Local)
      reads this`list, list`wantToLock, list`locked
    {
      Addressed(l) && WantsAs(l) && LockedAs(l, 0)
    }

    lemma Sizes(l: P.Local)
      requires Addressed(l)
      ensures |l.list| == |l.want| == |l.locked| == |list|
    {
    }

    lemma NotLocked(k: nat, j: nat, releasing: bool)
      requires k < |list| && Paused(k, j, false, releasing)
      ensures !list[k].locked
    {
    }

    lemma AllBack(k: nat)
      requires k < |list| && Paused(k, |list|, true, false) && list[k].wantToLock > 0
      ensures Settled()
    {
    }

    lemma RecordIs()
      ensures Recorded(Record())
    {
    }

    lemma RecordedAt(l: P.Local, k: nat)
      requires Recorded(l) && k < |list|
      ensures l.list[k] == list[k].pBt.addr && l.want[k] == list[k].wantToLock && l.locked[k] == list[k].locked
      ensures LockedAs(l, k + 1) && |l.list| == |l.want| == |l.locked| == |list|
    {
    }

    lemma Next(i: nat)
      requires Listed() && i < |list|
      ensures list[i].pNext == if i + 1 < |list| then list[i + 1] else null
      ensures i + 1 < |list| ==> list[i + 1].db == this
    {
    }
  }

  /** One round of the first loop of btreeLockCarefully. */
  method GiveUp(q: Btree, ghost k: nat, ghost j: nat, ghost l: P.Local)
    requires k < j < |q.db.list| && q.db.list[j] == q && q.db.Paused(k, j, false, true)
    requires q.db.Addressed(l) && q.db.LockedAs(l, j)
    modifies q`locked, q.pBt, q.db`ops
    ensures q.db.Paused(k, j + 1, false, true) && q.db.LockedAs(l, j + 1)
    ensures q.db.ops == old(q.db.ops) + if l.locked[j] then [Leave(l.list[j])] else []
  {
    ghost var db := q.db;
    forall i | 0 <= i < |db.list| && i != j
      ensures db.list[i] != q && db.list[i].pBt != q.pBt
    {
      db.Apart(i, j);
    }
    if q.locked {
      q.UnlockBtreeMutex();
    }
  }

  /** One round of the second loop. */
  method TakeBack(q: Btree, ghost k: nat, ghost j: nat, ghost l: P.Local)
    requires k < j < |q.db.list| && q.db.list[j] == q && q.db.Paused(k, j, true, false)
    requires q.db.Addressed(l) && q.db.WantsAs(l)
    modifies q`locked, q.db.shareds, q.db`ops
    ensures q.db.Paused(k, j + 1, true, false)
    ensures q.db.ops == old(q.db.ops) + if l.want[j] > 0 then [Enter(l.list[j])] else []
  {
    ghost var db := q.db;
    forall i | 0 <= i < |db.list| && i != j
      ensures db.list[i] != q && db.list[i].pBt != q.pBt
    {
      db.Apart(i, j);
    }
    if q.wantToLock != 0 {
      db.LaterNotHeld(k, j, true, false, j);
      q.LockBtreeMutex();
    }
  }

  /** The first loop has come to place j, which is that of q, and what it has done, with what is due from
      there on, makes up all. */
  ghost predicate GivingUp(db: Connection, q: Btree?, k: nat, j: nat, l: P.Local, all: seq<Op>)
    reads db, db.trees, db.shareds
  {
    && k < j <= |db.list| && db.Paused(k, j, false, true) && db.Addressed(l) && db.LockedAs(l, j)
    && q == (if j < |db.list| then db.list[j] else null) && db.ops + Releases(l, j) == all
  }

  lemma GivingUpStart(p: Btree, k: nat, l: P.Local)
    requires k < |p.db.list| && p.db.list[k] == p && p.db.Paused(k, k + 1, false, true)
    requires p.db.Addressed(l) && p.db.LockedAs(l, k + 1)
    ensures GivingUp(p.db, p.pNext, k, k + 1, l, p.db.ops + Releases(l, k + 1))
    ensures p.pNext != null ==> p.pNext.db == p.db
  {
    hide Releases;
    p.db.Next(k);
  }

  lemma GivingUpEnd(db: Connection, k: nat, j: nat, l: P.Local, all: seq<Op>)
    requires GivingUp(db, null, k, j, l, all)
    ensures j == |db.list| && db.Paused(k, |db.list|, false, true) && db.ops == all
  {
    assert j == |db.list|;
    ReleasesOn(l, j, db.ops);
  }

  method ReleaseRound(q: Btree, ghost db: Connection, ghost k: nat, ghost j: nat, ghost l: P.Local, ghost all: seq<Op>)
      returns (next: Btree?)
    requires q.db == db && GivingUp(db, q, k, j, l, all)
    modifies db.trees`locked, db.shareds, db`ops
    ensures j < |db.list| && GivingUp(db, next, k, j + 1, l, all) && (next != null ==> next.db == db)
  {
    db.Sizes(l);
    db.PausedListed(k, j, false, true);
    db.Next(j);
    ReleasesOn(l, j, db.ops);
    hide Connection.Paused, Connection.LockedAs, Releases;
    GiveUp(q, k, j, l);
    next := q.pNext;
  }

  /** The first loop: give up the mutexes of the handles after p. */
  method ReleaseLater(p: Btree, ghost k: nat, ghost l: P.Local)
    requires k < |p.db.list| && p.db.list[k] == p && p.db.Paused(k, k + 1, false, true)
    requires p.db.Addressed(l) && p.db.LockedAs(l, k + 1)
    modifies p.db.trees`locked, p.db.shareds, p.db`ops
    ensures p.db.Paused(k, |p.db.list|, false, true)
    ensures p.db.ops == old(p.db.ops) + Releases(l, k + 1)
  {
    ghost var db, all := p.db, p.db.ops + Releases(l, k + 1);
    GivingUpStart(p, k, l);
    hide Connection.Paused, Connection.LockedAs, Connection.Addressed, Releases, GivingUp;
    var pLater := p.pNext;
    ghost var j := k + 1;
    while pLater != null
      invariant GivingUp(db, pLater, k, j, l, all) && (pLater != null ==> pLater.db == db)
      decreases |db.list| - j
    {
      pLater := ReleaseRound(pLater, db, k, j, l, all);
      j := j + 1;
    }
    GivingUpEnd(db, k, j, l, all);
  }

  lemma ReleasesOn(l: P.Local, j: nat, done: seq<Op>)
    requires |l.locked| == |l.list|
    ensures j >= |l.list| ==> done + Releases(l, j) == done
    ensures j < |l.list| ==>
      done + Releases(l, j) == done + (if l.locked[j] then [Leave(l.list[j])] else []) + Releases(l, j + 1)
  {
  }

  lemma RetakesOn(l: P.Local, j: nat, done: seq<Op>)
    requires |l.want| == |l.list|
    ensures j >= |l.list| ==> done + Retakes(l, j) == done
    ensures j < |l.list| ==>
      done + Retakes(l, j) == done + (if l.want[j] > 0 then [Enter(l.list[j])] else []) + Retakes(l, j + 1)
  {
  }

  /** The same for the second loop. */
  ghost predicate TakingBack(db: Connection, q: Btree?, k: nat, j: nat, l: P.Local, all: seq<Op>)
    reads db, db.trees, db.shareds
  {
    && k < j <= |db.list| && db.Paused(k, j, true, false) && db.Addressed(l) && Wanting(db, l)
    && q == (if j < |db.list| then db.list[j] else null) && db.ops + Retakes(l, j) == all
  }

  ghost predicate Wanting(db: Connection, l: P.Local)
    reads db, db.trees
  {
    db.Listed() && db.WantsAs(l)
  }

  lemma TakingBackStart(p: Btree, k: nat, l: P.Local)
    requires k < |p.db.list| && p.db.list[k] == p && p.db.Paused(k, k + 1, true, false)
    requires p.db.Addressed(l) && p.db.WantsAs(l)
    ensures TakingBack(p.db, p.pNext, k, k + 1, l, p.db.ops + Retakes(l, k + 1))
    ensures p.pNext != null ==> p.pNext.db == p.db
  {
    hide Retakes;
    p.db.Next(k);
  }

  lemma TakingBackEnd(db: Connection, k: nat, j: nat, l: P.Local, all: seq<Op>)
    requires TakingBack(db, null, k, j, l, all)
    ensures j == |db.list| && db.Paused(k, |db.list|, true, false) && db.ops == all
  {
    assert j == |db.list|;
    RetakesOn(l, j, db.ops);
  }

  method RetakeRound(q: Btree, ghost db: Connection, ghost k: nat, ghost j: nat, ghost l: P.Local, ghost all: seq<Op>)
      returns (next: Btree?)
    requires q.db == db && TakingBack(db, q, k, j, l, all)
    modifies db.trees`locked, db.shareds, db`ops
    ensures j < |db.list| && TakingBack(db, next, k, j + 1, l, all) && (next != null ==> next.db == db)
  {
    db.Sizes(l);
    db.Next(j);
    RetakesOn(l, j, db.ops);
    hide Connection.Paused, Retakes;
    TakeBack(q, k, j, l);
    next := q.pNext;
  }

  /** The second loop: take back the mutexes still wanted, in address order. */
  method ReacquireLater(p: Btree, ghost k: nat, ghost l: P.Local)
    requires k < |p.db.list| && p.db.list[k] == p && p.db.Paused(k, k + 1, true, false)
    requires p.db.Addressed(l) && p.db.WantsAs(l)
    modifies p.db.trees`locked, p.db.shareds, p.db`ops
    ensures p.db.Paused(k, |p.db.list|, true, false)
    ensures p.db.ops == old(p.db.ops) + Retakes(l, k + 1)
  {
    ghost var db, all := p.db, p.db.ops + Retakes(l, k + 1);
    TakingBackStart(p, k, l);
    hide Connection.Paused, Connection.WantsAs, Connection.Addressed, Retakes, TakingBack;
    var pLater := p.pNext;
    ghost var j := k + 1;
    while pLater != null
      invariant TakingBack(db, pLater, k, j, l, all) && (pLater != null ==> pLater.db == db)
      decreases |db.list| - j
    {
      pLater := RetakeRound(pLater, db, k, j, l, all);
      j := j + 1;
    }
    TakingBackEnd(db, k, j, l, all);
  }

  /** btreeLockCarefully: takes the mutex of p without ever waiting for it while a later one is held; what
      it does to mutexes is what the protocol says. */
  method BtreeLockCarefully(p: Btree, ghost k: nat, ghost l: P.Local) returns (ghost ok: bool)
    requires k < |p.db.list| && p.db.list[k] == p && p.db.Paused(k, k + 1, false, true) && p.wantToLock > 0
    requires p.db.Recorded(l)
    modifies p.db.trees`locked, p.db.shareds, p.db`ops
    ensures p.db.Settled()
    ensures |l.want| == |l.locked| == |l.list| == |p.db.list|
    ensures p.db.ops == old(p.db.ops) + EnterOps(l, k, ok)
  {
    ghost var db, before := p.db, p.db.ops;
    db.RecordedAt(l, k);
    db.NotLocked(k, k + 1, true);
    assert db.Addressed(l) && db.WantsAs(l);
    OpsTogether(before, l, k);
    hide *;
    var got := TryMutex(p, k, l);
    ok := got;
    if got {
      return;
    }
    ReleaseLater(p, k, l);
    WaitForMutex(p, k);
    ReacquireLater(p, k, l);
    db.AllBack(k);
  }

  lemma OpsTogether(before: seq<Op>, l: P.Local, k: nat)
    requires |l.want| == |l.locked| == |l.list| && k < |l.list| && !l.locked[k]
    ensures before + [Try(l.list[k], false)] + Releases(l, k + 1) + [Enter(l.list[k])] + Retakes(l, k + 1)
         == before + EnterOps(l, k, false)
    ensures EnterOps(l, k, true) == [Try(l.list[k], true)]
  {
  }

  /** The try, in the middle of the list. */
  method TryMutex(p: Btree, ghost k: nat, ghost l: P.Local) returns (ok: bool)
    requires k < |p.db.list| && p.db.list[k] == p && p.db.Paused(k, k + 1, false, true) && p.wantToLock > 0
    requires p.db.LockedAs(l, k + 1)
    modifies p`locked, p.db.shareds, p.db`ops
    ensures if ok then p.db.Settled() else p.db.Paused(k, k + 1, false, true) && p.db.LockedAs(l, k + 1)
    ensures p.db.ops == old(p.db.ops) + [Try(p.pBt.addr, ok)]
  {
    ghost var db := p.db;
    forall i | 0 <= i < |db.list| && i != k
      ensures db.list[i] != p && db.list[i].pBt != p.pBt
    {
      db.Apart(i, k);
    }
    ok := p.TryBtreeMutex();
  }

  /** The blocking acquisition, when all later mutexes have been given up. */
  method WaitForMutex(p: Btree, ghost k: nat)
    requires k < |p.db.list| && p.db.list[k] == p && p.db.Paused(k, |p.db.list|, false, true)
    modifies p`locked, p.db.shareds, p.db`ops
    ensures p.db.Paused(k, k + 1, true, false)
    ensures p.db.ops == old(p.db.ops) + [Enter(p.pBt.addr)]
  {
    ghost var db := p.db;
    forall i | 0 <= i < |db.list| && i != k
      ensures db.list[i] != p && db.list[i].pBt != p.pBt
    {
      db.Apart(i, k);
    }
    db.LaterNotHeld(k, |db.list|, false, true, k);
    p.LockBtreeMutex();
  }

  /** sqlite3BtreeEnter: one more want for p and for no other handle; every handle then holds its
      mutex exactly when it is wanted; and what has been done to mutexes is a call of the protocol. */
  method BtreeEnter(p: Btree) returns (ghost ok: bool)
    requires p.db.Settled() && p.db.Handles(p)
    modifies p`wantToLock, p.db.trees`locked, p.db.shareds, p.db`ops
    ensures p.db.Settled() && p.db.Handles(p)
    ensures p.wantToLock == old(p.wantToLock) + (if p.sharable then 1 else 0)
    ensures p.db.ops == old(p.db.ops) +
      if p.sharable then EnterOps(old(p.db.Record()), p.db.IndexOf(p), ok) else []
  {
    ok := true;
    if !p.sharable {
      return;
    }
    ghost var k := p.db.IndexOf(p);
    ghost var l := p.db.Record();
    ghost var l1 := l.(want := l.want[k := l.want[k] + 1]);
    p.db.HandleAt(k);
    p.db.RecordIs();
    p.db.RecordedAt(l, k);
    SameOps(l, l1, k);
    hide Connection.Recorded, Connection.Record, Connection.Settled, Connection.Paused, Releases, Retakes;
    WantMore(p, k, l);
    if p.locked {
      return;
    }
    ok := BtreeLockCarefully(p, k, l1);
  }

  /** The count of the Btree itself does not matter for what is done. */
  lemma SameOps(l: P.Local, l1: P.Local, k: nat)
    requires |l.want| == |l.locked| == |l.list| && k < |l.list| && l1.list == l.list && l1.locked == l.locked
    requires |l1.want| == |l.want| && forall i :: k < i < |l.want| ==> l1.want[i] == l.want[i]
    ensures forall ok :: EnterOps(l1, k, ok) == EnterOps(l, k, ok)
  {
    SameReleases(l, l1, k + 1);
    LaterRetakes(l, l1, k, k + 1);
    hide Releases, Retakes;
  }

  lemma SameReleases(l: P.Local, l1: P.Local, j: nat)
    requires |l.locked| == |l.list| && l1.list == l.list && l1.locked == l.locked
    ensures Releases(l1, j) == Releases(l, j)
    decreases |l.list| - j
  {
    if j < |l.list| { SameReleases(l, l1, j + 1); }
  }

  lemma LaterRetakes(l: P.Local, l1: P.Local, k: nat, j: nat)
    requires |l.want| == |l.list| && l1.list == l.list && k < j
    requires |l1.want| == |l.want| && forall i :: k < i < |l.want| ==> l1.want[i] == l.want[i]
    ensures Retakes(l1, j) == Retakes(l, j)
    decreases |l.list| - j
  {
    if j < |l.list| { LaterRetakes(l, l1, k, j + 1); }
  }

  method WantMore(p: Btree, ghost k: nat, ghost l: P.Local)
    requires p.db.Settled() && k < |p.db.list| && p.db.list[k] == p && p.db.Recorded(l)
    modifies p`wantToLock
    ensures p.wantToLock == old(p.wantToLock) + 1
    ensures |l.want| == |p.db.list| && p.db.Recorded(l.(want := l.want[k := l.want[k] + 1]))
    ensures if p.locked then p.db.Settled() else p.db.Paused(k, k + 1, false, true)
  {
    forall i | 0 <= i < |p.db.list| && i != k
      ensures p.db.list[i] != p
    {
      p.db.Apart(i, k);
    }
    assert p.Fits(p.wantToLock > 0);
    p.wantToLock := p.wantToLock + 1;
  }

  ghost function Touched(p: Btree): set<object> {
    if p.sharable then {p, p.pBt} else {}
  }

  ghost function Noting(p: Btree): set<Connection> {
    if p.sharable then {p.db} else {}
  }

  /** sqlite3BtreeLeave: one want less; the mutex is released with the last one. */
  method BtreeLeave(p: Btree)
    requires p.db.Settled() && p.db.Handles(p) && (p.sharable ==> p.wantToLock > 0)
    modifies Touched(p), Noting(p)`ops
    ensures p.db.Settled() && p.db.Handles(p)
    ensures p.wantToLock == old(p.wantToLock) - (if p.sharable then 1 else 0)
    ensures p.db.ops == old(p.db.ops) + if p.sharable then LeaveOps(old(p.db.Record()), p.db.IndexOf(p)) else []
  {
    if p.sharable {
      ghost var k := p.db.IndexOf(p);
      p.db.RecordIs();
      hide Connection.Record, Connection.Settled, LeaveOps;
      WantLess(p, k, p.db.Record());
    }
  }

  method WantLess(p: Btree, ghost k: nat, ghost l: P.Local)
    requires p.db.Settled() && k < |p.db.list| && p.db.list[k] == p && p.wantToLock > 0 && p.db.Recorded(l)
    modifies p`wantToLock, p`locked, p.pBt, p.db`ops
    ensures p.wantToLock == old(p.wantToLock) - 1 && p.db.Settled()
    ensures |l.want| == |l.list| == |p.db.list| && p.db.ops == old(p.db.ops) + LeaveOps(l, k)
  {
    forall i | 0 <= i < |p.db.list| && i != k
      ensures p.db.list[i] != p && p.db.list[i].pBt != p.pBt
    {
      p.db.Apart(i, k);
    }
    assert p.Fits(p.wantToLock > 0);
    p.wantToLock := p.wantToLock - 1;
    if p.wantToLock == 0 {
      p.UnlockBtreeMutex();
    }
  }

  // ---------------------------------------------------------------- all databases of a connection

  /** How often p occurs among the first n open databases. */
  ghost function Times(aDb: seq<Btree?>, n: nat, p: Btree): nat
    requires n <= |aDb|
  {
    if n == 0 then 0 else Times(aDb, n - 1, p) + if aDb[n - 1] == p then 1 else 0
  }

  ghost predicate Sharing(b: Btree?) {
    b != null && b.sharable
  }

  /** Every open database is a handle of this connection. */
  ghost predicate Opened(db: Connection)
    reads db`aDb, db`list, db`trees, db.aDb
  {
    forall i {:trigger db.aDb[i]} :: 0 <= i < |db.aDb| && db.aDb[i] != null ==> db.Handles(db.aDb[i])
  }

  /** noSharedCache may only be set when no open database is sharable. */
  ghost predicate SkipOk(db: Connection)
    reads db`aDb, db`noSharedCache
  {
    db.noSharedCache ==> forall i {:trigger db.aDb[i]} :: 0 <= i < |db.aDb| ==> !Sharing(db.aDb[i])
  }

  /** sqlite3BtreeHoldsAllMutexes */
  method HoldsAllMutexes(db: Connection) returns (r: bool)
    ensures r <==> db.mutexHeld && forall i {:trigger db.aDb[i]} :: 0 <= i < |db.aDb| && Sharing(db.aDb[i]) ==>
      db.aDb[i].wantToLock > 0 && db.aDb[i].pBt.owner == db
  {
    if !db.mutexHeld {
      return false;
    }
    for i := 0 to |db.aDb|
      invariant forall j {:trigger db.aDb[j]} :: 0 <= j < i && Sharing(db.aDb[j]) ==>
        db.aDb[j].wantToLock > 0 && db.aDb[j].pBt.owner == db
    {
      var p := db.aDb[i];
      if p != null && p.sharable && (p.wantToLock == 0 || p.pBt.owner != db) {
        return false;
      }
    }
    return true;
  }

  /** Each listed handle is wanted as often as before, plus sign times its share of the first n
      open databases. */
  ghost predicate Counted(db: Connection, before: seq<nat>, n: nat, sign: int)
    reads db`aDb, db`list, db.list
    requires n <= |db.aDb|
  {
    && |before| == |db.list|
    && forall j {:trigger db.list[j]} :: 0 <= j < |db.list| ==>
         db.list[j].wantToLock == before[j] + sign * Times(db.aDb, n, db.list[j])
  }

  ghost function Wants(list: seq<Btree>): (w: seq<nat>)
    reads list
    ensures |w| == |list| && forall j {:trigger list[j]} {:trigger w[j]} :: 0 <= j < |list| ==>
      w[j] == list[j].wantToLock
  {
    seq(|list|, j requires 0 <= j < |list| reads list => list[j].wantToLock)
  }

  lemma NothingShared(db: Connection, before: seq<nat>)
    requires db.Settled() && SkipOk(db) && db.noSharedCache && Counted(db, before, 0, 1)
    ensures Counted(db, before, |db.aDb|, 1) && Counted(db, before, |db.aDb|, -1)
  {
    forall j {:trigger db.list[j]} | 0 <= j < |db.list|
      ensures Times(db.aDb, |db.aDb|, db.list[j]) == 0
    {
      NeverAmong(db.aDb, |db.aDb|, db.list[j]);
    }
  }

  lemma {:induction false} NeverAmong(aDb: seq<Btree?>, n: nat, p: Btree)
    requires n <= |aDb| && p.sharable && forall i {:trigger aDb[i]} :: 0 <= i < n ==> !Sharing(aDb[i])
    ensures Times(aDb, n, p) == 0
  {
    if n > 0 {
      assert !Sharing(aDb[n - 1]);
      NeverAmong(aDb, n - 1, p);
    }
  }

  method EnterOne(db: Connection, i: nat, ghost before: seq<nat>) returns (sharable: bool)
    requires db.Settled() && Opened(db) && i < |db.aDb| && Counted(db, before, i, 1)
    modifies db.trees, db.shareds, db`ops
    ensures db.Settled() && Opened(db) && Counted(db, before, i + 1, 1)
    ensures sharable <==> Sharing(db.aDb[i])
  {
    var p := db.aDb[i];
    sharable := p != null && p.sharable;
    if sharable {
      assert db.Handles(p);
      hide Connection.Settled;
      ghost var ok := BtreeEnter(p);
    }
  }

  /** sqlite3BtreeEnterAll: wants every open sharable database once more. */
  method BtreeEnterAll(db: Connection)
    requires db.Settled() && Opened(db) && SkipOk(db)
    modifies db`noSharedCache, db.trees, db.shareds, db`ops
    ensures db.Settled() && Opened(db) && SkipOk(db)
    ensures Counted(db, old(Wants(db.list)), |db.aDb|, 1)
  {
    ghost var before := Wants(db.list);
    assert Counted(db, before, 0, 1);
    if db.noSharedCache {
      NothingShared(db, before);
    }
    hide Connection.Settled, Connection.Listed, Opened, Counted;
    if !db.noSharedCache {
      var skipOk := true;
      for i := 0 to |db.aDb|
        invariant db.Settled() && Opened(db) && db.noSharedCache == old(db.noSharedCache)
        invariant skipOk <==> forall j {:trigger db.aDb[j]} :: 0 <= j < i ==> !Sharing(db.aDb[j])
        invariant Counted(db, before, i, 1)
      {
        var sharable := EnterOne(db, i, before);
        if sharable {
          skipOk := false;
        }
      }
      db.noSharedCache := skipOk;
    }
  }

  lemma LeaveIsDue(db: Connection, i: nat, before: seq<nat>)
    requires db.Settled() && Opened(db) && i < |db.aDb| && Counted(db, before, i, -1)
    requires Affordable(db, before) && Sharing(db.aDb[i])
    ensures db.aDb[i].wantToLock > 0
  {
    var p := db.aDb[i];
    assert db.Handles(p);
    var k := db.IndexOf(p);
    TimesGrows(db.aDb, i + 1, |db.aDb|, p);
    assert db.list[k].wantToLock == before[k] - Times(db.aDb, i, p);
    assert Times(db.aDb, |db.aDb|, db.list[k]) <= before[k];
  }

  method LeaveOne(db: Connection, i: nat, ghost before: seq<nat>)
    requires db.Settled() && Opened(db) && i < |db.aDb| && Counted(db, before, i, -1)
    requires Affordable(db, before)
    modifies db.trees, db.shareds, db`ops
    ensures db.Settled() && Opened(db) && Counted(db, before, i + 1, -1) && Affordable(db, before)
  {
    var p := db.aDb[i];
    if p != null {
      assert db.Handles(p);
      if p.sharable {
        LeaveIsDue(db, i, before);
        db.HandleAt(db.IndexOf(p));
      }
      hide Connection.Settled;
      BtreeLeave(p);
    }
  }

  /** Each listed handle is wanted at least as often as it stands among the open databases. */
  ghost predicate Affordable(db: Connection, wants: seq<nat>)
    reads db`aDb, db`list
  {
    |wants| == |db.list| && forall j {:trigger db.list[j]} :: 0 <= j < |db.list| ==>
      Times(db.aDb, |db.aDb|, db.list[j]) <= wants[j]
  }

  lemma {:induction false} TimesGrows(aDb: seq<Btree?>, m: nat, n: nat, p: Btree)
    requires m <= n <= |aDb|
    ensures Times(aDb, m, p) <= Times(aDb, n, p)
  {
    if m < n {
      TimesGrows(aDb, m, n - 1, p);
    }
  }

  /** sqlite3BtreeLeaveAll: wants every open sharable database once less. */
  method BtreeLeaveAll(db: Connection)
    requires db.Settled() && Opened(db) && SkipOk(db) && Affordable(db, Wants(db.list))
    modifies db.trees, db.shareds, db`ops
    ensures db.Settled() && Opened(db) && Counted(db, old(Wants(db.list)), |db.aDb|, -1)
  {
    ghost var before := Wants(db.list);
    assert Counted(db, before, 0, -1);
    if db.noSharedCache {
      NothingShared(db, before);
    }
    if !db.noSharedCache {
      LeaveEach(db, before);
    }
  }

  method LeaveEach(db: Connection, ghost before: seq<nat>)
    requires db.Settled() && Opened(db) && Counted(db, before, 0, -1) && Affordable(db, before)
    modifies db.trees, db.shareds, db`ops
    ensures db.Settled() && Opened(db) && Counted(db, before, |db.aDb|, -1)
  {
    hide Connection.Settled, Connection.Listed, Opened, Counted, Affordable;
    for i := 0 to |db.aDb|
      invariant db.Settled() && Opened(db) && Counted(db, before, i, -1) && Affordable(db, before)
    {
      LeaveOne(db, i, before);
    }
  }

  /** The usual bracket: in between all mutexes are held, and afterwards every count is back. */
  method WithAllMutexes(db: Connection)
    requires db.Settled() && Opened(db) && SkipOk(db)
    modifies db`noSharedCache, db.trees, db.shareds, db`ops
    ensures db.Settled() && Opened(db) && SkipOk(db) && Wants(db.list) == old(Wants(db.list))
  {
    hide Connection.Settled, Connection.Listed, Opened, SkipOk, Affordable, Counted;
    ghost var before := Wants(db.list);
    BtreeEnterAll(db);
    var r := HoldsAllMutexes(db);
    AllHeld(db, before);
    assert r;
    ghost var during := Wants(db.list);
    Affords(db, before, during);
    BtreeLeaveAll(db);
    Restored(db, before, during);
  }

  lemma Affords(db: Connection, before: seq<nat>, during: seq<nat>)
    requires Counted(db, before, |db.aDb|, 1) && during == Wants(db.list)
    ensures Affordable(db, during)
    ensures |during| == |before| == |db.list|
    ensures forall j {:trigger db.list[j]} :: 0 <= j < |db.list| ==>
      during[j] == before[j] + Times(db.aDb, |db.aDb|, db.list[j])
  {
  }

  lemma Restored(db: Connection, before: seq<nat>, during: seq<nat>)
    requires Counted(db, during, |db.aDb|, -1) && |during| == |before| == |db.list|
    requires forall j {:trigger db.list[j]} :: 0 <= j < |db.list| ==>
      during[j] == before[j] + Times(db.aDb, |db.aDb|, db.list[j])
    ensures Wants(db.list) == before
  {
    var w := Wants(db.list);
    forall j | 0 <= j < |w|
      ensures w[j] == before[j]
    {
      assert db.list[j] == db.list[j];
    }
  }

  /** What sqlite3BtreeEnterAll leaves behind is what sqlite3BtreeHoldsAllMutexes asks for. */
  lemma AllHeld(db: Connection, before: seq<nat>)
    requires db.Settled() && Opened(db) && Counted(db, before, |db.aDb|, 1)
    ensures db.mutexHeld
    ensures forall i {:trigger db.aDb[i]} :: 0 <= i < |db.aDb| && Sharing(db.aDb[i]) ==>
      db.aDb[i].wantToLock > 0 && db.aDb[i].pBt.owner == db
  {
    forall i {:trigger db.aDb[i]} | 0 <= i < |db.aDb| && Sharing(db.aDb[i])
      ensures db.aDb[i].wantToLock > 0 && db.aDb[i].pBt.owner == db
    {
      var p := db.aDb[i];
      assert db.Handles(p);
      var k := db.IndexOf(p);
      db.HandleAt(k);
      TimesGrows(db.aDb, i + 1, |db.aDb|, p);
      assert db.list[k].wantToLock == before[k] + Times(db.aDb, |db.aDb|, p);
    }
  }
}
