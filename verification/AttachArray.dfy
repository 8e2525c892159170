/** The array of open databases under ATTACH and DETACH. */
module AttachArray {
  import opened Wrappers
  import opened Names

  /** One entry of aDb; pBt is None when the database is closed. */
  datatype Db = Db(name: string, pBt: Option<nat>)

  /** What the outside world answers during an ATTACH: whether the URI is good, how opening the file
      ends, and whatever comes after (encoding, key, reading the schema). */
  datatype Env = Env(uriOk: bool, openRc: int, pBt: nat, laterRc: int)

  datatype Answer = Done | TooMany | InUse | BadUri | Failed | NoSuch | Cannot | Locked

  // ---------------------------------------------------------------- lists of databases

  /** The open ones. */
  function Open(list: seq<Db>): seq<Db> {
    if list == [] then []
    else Open(list[..|list| - 1]) + if list[|list| - 1].pBt.None? then [] else [list[|list| - 1]]
  }

  /** main and temp are there, everything after them is open, and no two names agree. */
  ghost predicate Good(list: seq<Db>) {
    && |list| >= 2
    && (forall i {:trigger list[i]} :: 2 <= i < |list| ==> list[i].pBt.Some?)
    && (forall i {:trigger list[i]} :: 0 <= i < |list| ==> NUL !in list[i].name)
    && (forall i, j :: 0 <= i < j < |list| ==> !SameName(list[i].name, list[j].name))
  }

  predicate Named(list: seq<Db>, name: string) {
    exists i :: 0 <= i < |list| && SameName(list[i].name, name)
  }

  /** The first open database of that name at place i or later, |list| if there is none. */
  function Find(list: seq<Db>, name: string, i: nat): (k: nat)
    requires i <= |list|
    ensures i <= k <= |list|
    ensures k < |list| ==> list[k].pBt.Some? && SameName(list[k].name, name)
    ensures forall j :: i <= j < k ==> list[j].pBt.None? || !SameName(list[j].name, name)
    decreases |list| - i
  {
    if i == |list| || (list[i].pBt.Some? && SameName(list[i].name, name)) then i else Find(list, name, i + 1)
  }

  function AttachAnswer(list: seq<Db>, limit: nat, name: string, env: Env): Answer {
    if |list| >= limit + 2 then TooMany
    else if Named(list, name) then InUse
    else if !env.uriOk then BadUri
    else if env.openRc != 0 || env.laterRc != 0 then Failed
    else Done
  }

  /** The list after an ATTACH. */
  function Attached(list: seq<Db>, limit: nat, name: string, env: Env): seq<Db> {
    if AttachAnswer(list, limit, name, env) == Done then list + [Db(name, Some(env.pBt))] else list
  }

  function DetachAnswer(list: seq<Db>, name: string, locked: bool): Answer {
    var k := Find(list, name, 0);
    if k == |list| then NoSuch else if k < 2 then Cannot else if locked then Locked else Done
  }

  /** The list after a DETACH. */
  function Detached(list: seq<Db>, name: string, locked: bool): seq<Db> {
    var k := Find(list, name, 0);
    if DetachAnswer(list, name, locked) == Done then list[..k] + list[k + 1..] else list
  }

  // ---------------------------------------------------------------- the array

  class Connection {
    const aDbStatic: array<Db>
    var aDb: array<Db>
    var nDb: nat
    var nSchemaLock: nat

    constructor (main: Db, temp: Db)
      ensures Valid() && List() == [main, temp] && fresh(aDbStatic) && nSchemaLock == 0
    {
      aDbStatic := new Db[2](i => if i == 0 then main else temp);
      aDb := aDbStatic;
      nDb := 2;
      nSchemaLock := 0;
    }

    ghost predicate Valid()
      reads this
    {
      2 <= nDb <= aDb.Length && aDbStatic.Length == 2
    }

    ghost function List(): seq<Db>
      requires Valid()
      reads this, aDb
    {
      aDb[..nDb]
    }

    /** sqlite3CollapseDatabaseArray: closed entries after the first two go, the others close up. */
    method Collapse()
      requires Valid()
      modifies this`nDb, this`aDb, aDb, aDbStatic
      ensures Valid() && List() == Kept(old(List()), old(nDb))
      ensures aDb == old(aDb) || aDb == aDbStatic
    {
      hide Kept;
      ghost var left := Kept(List(), nDb);
      nDb := Compact(aDb, nDb);
      if nDb <= 2 && aDb != aDbStatic {
        aDbStatic[0], aDbStatic[1] := aDb[0], aDb[1];
        aDb := aDbStatic;
        assert aDb[..nDb] == left;
      }
    }

    /** Room for one more entry; the new one is cleared. */
    method Grow()
      requires Valid()
      modifies this`aDb
      ensures Valid() && List() == old(List()) && fresh(aDb) && nDb < aDb.Length
      ensures aDb[nDb] == Db("", None)
    {
      var size := if aDb == aDbStatic then 3 else nDb + 1;
      var aNew := new Db[size](_ => Db("", None));
      forall i | 0 <= i < nDb {
        aNew[i] := aDb[i];
      }
      aDb := aNew;
    }

    /** The loop of attachFunc that looks for the name. */
    method NameInUse(name: string) returns (found: bool)
      requires Valid() && Good(List()) && NUL !in name
      ensures found <==> Named(List(), name)
    {
      for i := 0 to nDb
        invariant forall k :: 0 <= k < i ==> !SameName(aDb[k].name, name)
      {
        assert List()[i] == aDb[i];
        var c := StrICmp(aDb[i].name, name);
        if c == 0 {
          return true;
        }
      }
      return false;
    }

    /** What attachFunc does when opening the database fails after its entry was made: put everything
        back the way it was. */
    method Unwind()
      requires Valid() && nDb > 2 && Good(List()[..nDb - 1])
      modifies this`nDb, this`aDb, aDb, aDbStatic
      ensures Valid() && List() == old(List()[..nDb - 1])
    {
      ghost var before := List()[..nDb - 1];
      var iDb := nDb - 1;
      if aDb[iDb].pBt.Some? {
        aDb[iDb] := aDb[iDb].(pBt := None);
      }
      assert List() == before + [aDb[iDb]];
      KeptLast(before, aDb[iDb]);
      if nSchemaLock == 0 {
        Collapse();
      }
      nDb := iDb;
      assert List() == before;
    }

    /** attachFunc */
    method Attach(name: string, limit: nat, env: Env) returns (answer: Answer)
      requires Valid() && Good(List()) && NUL !in name
      modifies this`nDb, this`aDb, aDb, aDbStatic
      ensures Valid() && List() == Attached(old(List()), limit, name, env)
      ensures answer == AttachAnswer(old(List()), limit, name, env)
    {
      ghost var before := List();
      hide Good, Named;
      if nDb >= limit + 2 {
        return TooMany;
      }
      var found := NameInUse(name);
      if found {
        return InUse;
      }
      Grow();
      if !env.uriOk {
        return BadUri;
      }
      aDb[nDb] := Db(name, if env.openRc == 0 then Some(env.pBt) else None);
      nDb := nDb + 1;
      assert List() == before + [aDb[nDb - 1]];
      var rc := if env.openRc != 0 then env.openRc else env.laterRc;
      if rc != 0 {
        assert List()[..nDb - 1] == before;
        Unwind();
        return Failed;
      }
      return Done;
    }

    /** The loop of detachFunc: closed entries are passed over. */
    method FindOpen(name: string) returns (i: nat)
      requires Valid() && Good(List()) && NUL !in name
      ensures i == Find(List(), name, 0)
    {
      i := 0;
      while i < nDb
        invariant i <= nDb && Find(List(), name, 0) == Find(List(), name, i)
      {
        assert List()[i] == aDb[i];
        if aDb[i].pBt.Some? {
          var c := StrICmp(aDb[i].name, name);
          if c == 0 {
            return;
          }
        }
        i := i + 1;
      }
    }

    /** detachFunc; locked tells whether the database is in a transaction or a backup. */
    method Detach(name: string, locked: bool) returns (answer: Answer)
      requires Valid() && Good(List()) && NUL !in name
      modifies this`nDb, this`aDb, aDb, aDbStatic
      ensures Valid() && List() == Detached(old(List()), name, locked)
      ensures answer == DetachAnswer(old(List()), name, locked)
    {
      ghost var before := List();
      var i := FindOpen(name);
      if i >= nDb {
        return NoSuch;
      }
      if i < 2 {
        return Cannot;
      }
      if locked {
        return Locked;
      }
      aDb[i] := aDb[i].(pBt := None);
      KeptOne(before, i);
      assert List() == before[i := before[i].(pBt := None)];
      hide Good, Kept;
      Collapse();
      return Done;
    }
  }

  lemma {:induction false} OpenAll(list: seq<Db>)
    requires forall i :: 0 <= i < |list| ==> list[i].pBt.Some?
    ensures Open(list) == list
  {
    if list != [] {
      OpenAll(list[..|list| - 1]);
    }
  }

  lemma {:induction false} OpenJoin(a: seq<Db>, b: seq<Db>)
    ensures Open(a + b) == Open(a) + Open(b)
  {
    if b == [] {
      assert a + b == a;
    } else {
      OpenJoin(a, b[..|b| - 1]);
      assert (a + b)[..|a + b| - 1] == a + b[..|b| - 1];
    }
  }

  /** Closing the last entry of a good list and collapsing leaves the list before it. */
  lemma KeptLast(list: seq<Db>, d: Db)
    requires Good(list) && d.pBt.None?
    ensures Kept(list + [d], |list| + 1) == list
  {
    assert (list + [d])[2..|list| + 1] == list[2..] + [d];
    OpenJoin(list[2..], [d]);
    OpenAll(list[2..]);
    assert [d][..0] == [];
  }

  lemma OpenAround(low: seq<Db>, d: Db, high: seq<Db>)
    requires d.pBt.None?
    requires forall i :: 0 <= i < |low| ==> low[i].pBt.Some?
    requires forall i :: 0 <= i < |high| ==> high[i].pBt.Some?
    ensures Open(low + ([d] + high)) == low + high
  {
    OpenAll(low);
    OpenAll(high);
    OpenClosed(d);
    hide Open;
    OpenJoin(low, [d] + high);
    OpenJoin([d], high);
    assert [] + high == high;
  }

  lemma TailWithout(list: seq<Db>, i: nat, d: Db)
    requires 2 <= i < |list|
    ensures list[i := d][2..|list|] == list[2..i] + ([d] + list[i + 1..])
  {
  }

  lemma HeadAndTail(list: seq<Db>, i: nat, high: seq<Db>)
    requires 2 <= i < |list|
    ensures list[..2] + (list[2..i] + high) == list[..i] + high
  {
    assert list[..2] + list[2..i] == list[..i];
    assert list[..2] + (list[2..i] + high) == (list[..2] + list[2..i]) + high;
  }

  /** Closing entry i of a good list and collapsing takes out that entry alone. */
  lemma KeptOne(list: seq<Db>, i: nat)
    requires Good(list) && 2 <= i < |list|
    ensures Kept(list[i := list[i].(pBt := None)], |list|) == list[..i] + list[i + 1..]
  {
    var d := list[i].(pBt := None);
    OpenAround(list[2..i], d, list[i + 1..]);
    TailWithout(list, i, d);
    HeadAndTail(list, i, list[i + 1..]);
    assert list[i := d][..2] == list[..2];
  }

  lemma OpenClosed(d: Db)
    requires d.pBt.None?
    ensures Open([d]) == []
  {
    assert [d][..0] == [];
  }

  /** The first two entries and the open ones among those up to n. */
  function Kept(all: seq<Db>, n: nat): seq<Db>
    requires 2 <= n <= |all|
  {
    all[..2] + Open(all[2..n])
  }

  lemma KeptNext(all: seq<Db>, i: nat)
    requires 2 <= i < |all|
    ensures Kept(all, i + 1) == Kept(all, i) + if all[i].pBt.None? then [] else [all[i]]
  {
    assert all[2..i + 1][..i - 2] == all[2..i];
  }

  lemma KeptNone(all: seq<Db>)
    requires 2 <= |all|
    ensures Kept(all, 2) == all[..2]
  {
  }

  /** The loop of sqlite3CollapseDatabaseArray. */
  method Compact(a: array<Db>, n: nat) returns (j: nat)
    requires 2 <= n <= a.Length
    modifies a
    ensures 2 <= j <= n && a[..j] == Kept(old(a[..n]), n)
  {
    ghost var all := a[..n];
    KeptNone(all);
    hide Kept;
    var i := 2;
    j := 2;
    assert all[..2] == a[..2];
    while i < n
      invariant 2 <= j <= i <= n && a[..j] == Kept(all, i)
      invariant forall k :: i <= k < n ==> a[k] == all[k]
    {
      KeptNext(all, i);
      if a[i].pBt.None? {
        i := i + 1;
        continue;
      }
      MoveDown(a, i, j);
      j := j + 1;
      i := i + 1;
    }
  }

  method MoveDown(a: array<Db>, i: nat, j: nat)
    requires j <= i < a.Length
    modifies a
    ensures a[..j + 1] == old(a[..j]) + [old(a[i])] && forall k :: i < k < a.Length ==> a[k] == old(a[k])
  {
    if j < i {
      a[j] := a[i];
    }
  }

  // ---------------------------------------------------------------- over every run

  lemma SameNames(a: string, b: string, c: string)
    requires SameName(a, b)
    ensures SameName(b, a) && (SameName(b, c) <==> SameName(a, c)) && (SameName(c, a) <==> SameName(c, b))
  {
  }

  lemma AttachKeeps(list: seq<Db>, limit: nat, name: string, env: Env)
    requires Good(list) && NUL !in name
    ensures Good(Attached(list, limit, name, env)) && Attached(list, limit, name, env)[..2] == list[..2]
    ensures |list| <= limit + 2 ==> |Attached(list, limit, name, env)| <= limit + 2
  {
    var list' := Attached(list, limit, name, env);
    if AttachAnswer(list, limit, name, env) == Done {
      forall i, j | 0 <= i < j < |list'|
        ensures !SameName(list'[i].name, list'[j].name)
      {
        assert list'[i] == list[i];
      }
    }
  }

  /** In a good list at most one database has a name, so the first open one is the only one. */
  lemma FindIsUnique(list: seq<Db>, name: string, i: nat)
    requires Good(list) && i < |list| && SameName(list[i].name, name)
    ensures Find(list, name, 0) == if list[i].pBt.Some? then i else |list|
  {
    forall j | 0 <= j < |list| && j != i
      ensures !SameName(list[j].name, name)
    {
      if SameName(list[j].name, name) {
        SameNames(list[j].name, name, list[i].name);
        SameNames(list[i].name, name, list[j].name);
      }
    }
  }

  function Without(list: seq<Db>, k: nat): seq<Db>
    requires k < |list|
  {
    list[..k] + list[k + 1..]
  }

  lemma WithoutGood(list: seq<Db>, k: nat)
    requires Good(list) && 2 <= k < |list|
    ensures Good(Without(list, k)) && Without(list, k)[..2] == list[..2]
  {
    var list' := Without(list, k);
    assert forall i :: 0 <= i < |list'| ==> list'[i] == list[if i < k then i else i + 1];
    hide SameName;
  }

  lemma WithoutMembers(list: seq<Db>, k: nat, name: string)
    requires k < |list| && SameName(list[k].name, name)
    requires forall i :: 0 <= i < |list| && i != k ==> !SameName(list[i].name, name)
    ensures forall d :: d in Without(list, k) <==> d in list && !SameName(d.name, name)
  {
    hide SameName;
    var list' := Without(list, k);
    assert forall i :: 0 <= i < |list'| ==> list'[i] == list[if i < k then i else i + 1];
    forall d | d in list && !SameName(d.name, name)
      ensures d in list'
    {
      var i :| 0 <= i < |list| && list[i] == d;
      assert list'[if i < k then i else i - 1] == d;
    }
  }

  lemma OthersDiffer(list: seq<Db>, k: nat, name: string)
    requires Good(list) && k < |list| && SameName(list[k].name, name)
    ensures forall i :: 0 <= i < |list| && i != k ==> !SameName(list[i].name, name)
  {
    forall i | 0 <= i < |list| && i != k
      ensures !SameName(list[i].name, name)
    {
      SameNames(list[k].name, name, list[i].name);
      SameNames(name, list[k].name, list[i].name);
      if SameName(list[i].name, name) {
        SameNames(list[i].name, name, list[k].name);
      }
    }
  }

  /** A detach that succeeds takes out the database of that name and nothing else, and keeps the order;
      it never touches main or temp. */
  lemma DetachRemoves(list: seq<Db>, name: string, locked: bool)
    requires Good(list) && NUL !in name
    ensures Good(Detached(list, name, locked)) && Detached(list, name, locked)[..2] == list[..2]
    ensures DetachAnswer(list, name, locked) == Done ==>
      var k := Find(list, name, 0);
      && 2 <= k < |list| && SameName(list[k].name, name) && Detached(list, name, locked) == Without(list, k)
      && forall d :: d in Detached(list, name, locked) <==> d in list && !SameName(d.name, name)
    ensures DetachAnswer(list, name, locked) != Done ==> Detached(list, name, locked) == list
  {
    hide Good, SameName;
    if DetachAnswer(list, name, locked) == Done {
      var k := Find(list, name, 0);
      WithoutGood(list, k);
      OthersDiffer(list, k, name);
      WithoutMembers(list, k, name);
    }
  }

  /** DETACH finds nothing exactly when no open database has the name. */
  lemma NoSuchMeans(list: seq<Db>, name: string, locked: bool)
    ensures DetachAnswer(list, name, locked) == NoSuch <==>
      forall i {:trigger list[i]} :: 0 <= i < |list| && list[i].pBt.Some? ==> !SameName(list[i].name, name)
  {
    var k := Find(list, name, 0);
    if k < |list| {
      assert list[k].pBt.Some?;
    }
  }

  /** Detaching what has just been attached, under the name in any case, gives the list back. */
  lemma DetachUndoesAttach(list: seq<Db>, limit: nat, name: string, env: Env, name': string)
    requires Good(list) && NUL !in name && SameName(name, name')
    requires AttachAnswer(list, limit, name, env) == Done
    ensures Detached(Attached(list, limit, name, env), name', false) == list
  {
    var list' := Attached(list, limit, name, env);
    AttachKeeps(list, limit, name, env);
    FindIsUnique(list', name', |list|);
    assert list'[..|list|] == list;
  }

  datatype Event = Attach(name: string, env: Env) | Detach(name: string, locked: bool)

  function After(list: seq<Db>, limit: nat, e: Event): seq<Db> {
    match e
    case Attach(name, env) => Attached(list, limit, name, env)
    case Detach(name, locked) => Detached(list, name, locked)
  }

  function Run(list: seq<Db>, limit: nat, events: seq<Event>): seq<Db> {
    if events == [] then list else After(Run(list, limit, events[..|events| - 1]), limit, events[|events| - 1])
  }

  /** Over every run of attaches, failing at any point or succeeding, and detaches: main and temp stay
      put, everything else is open, names stay distinct ignoring case, and the limit is kept. */
  lemma {:induction false} RunKeeps(list: seq<Db>, limit: nat, events: seq<Event>)
    requires Good(list) && |list| <= limit + 2 && forall i :: 0 <= i < |events| ==> NUL !in events[i].name
    ensures var list' := Run(list, limit, events);
      Good(list') && |list'| <= limit + 2 && list'[..2] == list[..2]
    decreases |events|
  {
    if events != [] {
      var n := |events| - 1;
      var before := Run(list, limit, events[..n]);
      RunKeeps(list, limit, events[..n]);
      match events[n]
      case Attach(name, env) => AttachKeeps(before, limit, name, env);
      case Detach(name, locked) => DetachRemoves(before, name, locked);
    }
  }

  predicate Succeeds(env: Env) {
    env.uriOk && env.openRc == 0 && env.laterRc == 0
  }

  /** An ATTACH succeeds exactly when fewer than limit databases are attached, no database has the name
      and every call succeeds; the name then finds the database just opened. */
  lemma AttachMeans(list: seq<Db>, limit: nat, name: string, env: Env)
    requires Good(list)
    ensures AttachAnswer(list, limit, name, env) == Done <==>
      |list[2..]| < limit && (forall d {:trigger d in list} :: d in list ==> !SameName(d.name, name)) && Succeeds(env)
    ensures AttachAnswer(list, limit, name, env) == TooMany <==> |list[2..]| >= limit
    ensures AttachAnswer(list, limit, name, env) == InUse ==>
      exists d {:trigger d in list} :: d in list && SameName(d.name, name)
    ensures var list' := Attached(list, limit, name, env);
      if AttachAnswer(list, limit, name, env) == Done then
        list'[..|list|] == list && Find(list', name, 0) == |list| == |list'| - 1 && list'[|list|].pBt == Some(env.pBt)
      else list' == list
  {
    var list' := Attached(list, limit, name, env);
    NamedIs(list, name);
    if AttachAnswer(list, limit, name, env) == Done {
      assert list' == list + [Db(name, Some(env.pBt))];
      assert SameName(list'[|list|].name, name) && list'[|list|].pBt.Some?;
    }
  }

  lemma NamedIs(list: seq<Db>, name: string)
    ensures Named(list, name) <==> exists d {:trigger d in list} :: d in list && SameName(d.name, name)
  {
    if d :| d in list && SameName(d.name, name) {
      var i :| 0 <= i < |list| && list[i] == d;
      assert SameName(list[i].name, name);
    }
  }

  /** The databases that successful ATTACHes open. */
  function Opened(events: seq<Event>): seq<Db>
    requires forall i :: 0 <= i < |events| ==> events[i].Attach?
  {
    seq(|events|, i requires 0 <= i < |events| => Db(events[i].name, Some(events[i].env.pBt)))
  }

  /** As many databases as the limit allows can be attached, one after the other. */
  lemma {:induction false} AttachAll(list: seq<Db>, limit: nat, events: seq<Event>)
    requires |list| >= 2 && |list[2..]| + |events| <= limit
    requires forall i {:trigger events[i]} :: 0 <= i < |events| ==>
      events[i].Attach? && Succeeds(events[i].env) && !Named(list, events[i].name)
    requires forall i, j :: 0 <= i < j < |events| ==> !SameName(events[i].name, events[j].name)
    ensures Run(list, limit, events) == list + Opened(events)
    decreases |events|
  {
    if events != [] {
      var n := |events| - 1;
      AttachAll(list, limit, events[..n]);
      var before := Run(list, limit, events[..n]);
      assert list + Opened(events) == before + [Db(events[n].name, Some(events[n].env.pBt))];
    }
  }

  /** Without the invariant the unwinding would be wrong: with a closed database in the list, a failed
      attach that collapses drops it and then counts one entry too many. */
  lemma ClosedEntryWouldBreakUnwind(main: Db, temp: Db, closed: Db, failed: Db)
    requires closed.pBt.None? && failed.pBt.None?
    ensures !Good([main, temp, closed])
    ensures |Kept([main, temp, closed, failed], 4)| < |[main, temp, closed]|
  {
    var all := [main, temp, closed, failed];
    assert all[2..4] == [closed] + [failed];
    OpenJoin([closed], [failed]);
    OpenClosed(closed);
    OpenClosed(failed);
    assert [main, temp, closed][2] == closed;
  }
}
