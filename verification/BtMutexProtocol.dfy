/** Btree mutexes as a protocol of many connections, one thread each, taking one mutex at a time. */
module BtMutexProtocol {
  import opened Wrappers

  type Conn = int
  type Addr = int    // address of a BtShared, which orders the mutexes

  /** Where a connection stands inside sqlite3BtreeEnter for the Btree at position k of its list. */
  datatype Pc =
    | Idle                          // between calls
    | Trying(k: nat)                // about to try the mutex without blocking
    | Releasing(k: nat, j: nat)     // giving up the later mutexes, j is next
    | Blocking(k: nat)              // about to wait for the mutex of k
    | Reacquiring(k: nat, j: nat)   // taking the later ones back, j is next

  /** What one connection keeps: its sharable Btrees sorted by BtShared address. */
  datatype Local = Local(list: seq<Addr>, want: seq<nat>, locked: seq<bool>, pc: Pc)

  /** owner: who holds each BtShared mutex; db: the BtShared.db fields. */
  datatype State = State(conns: map<Conn, Local>, owner: map<Addr, Conn>, db: map<Addr, Conn>)

  ghost predicate Sorted(s: seq<Addr>) {
    forall i, j :: 0 <= i < j < |s| ==> s[i] < s[j]
  }

  ghost predicate Shaped(l: Local) {
    && |l.want| == |l.locked| == |l.list| && Sorted(l.list)
    && (!l.pc.Idle? ==> l.pc.k < |l.list|)
    && (l.pc.Releasing? || l.pc.Reacquiring? ==> l.pc.k < l.pc.j <= |l.list|)
  }

  // ---------------------------------------------------------------- steps

  function Take(s: State, c: Conn, k: nat, pc: Pc): State
    requires c in s.conns && Shaped(s.conns[c]) && k < |s.conns[c].list|
  {
    var l := s.conns[c];
    State(s.conns[c := l.(locked := l.locked[k := true], pc := pc)], s.owner[l.list[k] := c], s.db[l.list[k] := c])
  }

  function Drop(s: State, c: Conn, k: nat, pc: Pc): State
    requires c in s.conns && Shaped(s.conns[c]) && k < |s.conns[c].list|
  {
    var l := s.conns[c];
    State(s.conns[c := l.(locked := l.locked[k := false], pc := pc)], s.owner - {l.list[k]}, s.db)
  }

  function Goto(s: State, c: Conn, pc: Pc): State
    requires c in s.conns
  {
    s.(conns := s.conns[c := s.conns[c].(pc := pc)])
  }

  function Want(s: State, c: Conn, k: nat, n: nat): State
    requires c in s.conns && k < |s.conns[c].want|
  {
    s.(conns := s.conns[c := s.conns[c].(want := s.conns[c].want[k := n])])
  }

  /** A call of sqlite3BtreeEnter on Btree k. */
  function EnterCall(s: State, c: Conn, k: nat): State
    requires c in s.conns && Shaped(s.conns[c]) && k < |s.conns[c].list|
  {
    var l := s.conns[c];
    var s1 := Want(s, c, k, l.want[k] + 1);
    if l.locked[k] then s1 else Goto(s1, c, Trying(k))
  }

  /** A call of sqlite3BtreeLeave on Btree k. */
  function LeaveCall(s: State, c: Conn, k: nat): State
    requires c in s.conns && Shaped(s.conns[c]) && k < |s.conns[c].list| && s.conns[c].want[k] > 0
  {
    var l := s.conns[c];
    var s1 := Want(s, c, k, l.want[k] - 1);
    if l.want[k] == 1 then Drop(s1, c, k, Idle) else s1
  }

  function AfterRelease(k: nat, n: nat): Pc {
    if k + 1 < n then Releasing(k, k + 1) else Blocking(k)
  }

  /** The mutex a connection is waiting for, if it is at a blocking acquisition. */
  function WaitsFor(l: Local): Option<Addr>
    requires Shaped(l)
  {
    match l.pc
    case Blocking(k) => Some(l.list[k])
    case Reacquiring(k, j) => if j < |l.list| && l.want[j] > 0 then Some(l.list[j]) else None
    case _ => None
  }

  /** The next state of a connection inside a call; None when it has to wait. */
  function Advance(s: State, c: Conn): Option<State>
    requires c in s.conns && Shaped(s.conns[c]) && !s.conns[c].pc.Idle?
  {
    var l := s.conns[c];
    var n := |l.list|;
    match l.pc
    case Trying(k) =>
      if l.list[k] !in s.owner then Some(Take(s, c, k, Idle)) else Some(Goto(s, c, AfterRelease(k, n)))
    case Releasing(k, j) =>
      if j == n then Some(Goto(s, c, Blocking(k)))
      else if l.locked[j] then Some(Drop(s, c, j, Releasing(k, j + 1)))
      else Some(Goto(s, c, Releasing(k, j + 1)))
    case Blocking(k) =>
      if l.list[k] !in s.owner then Some(Take(s, c, k, Reacquiring(k, k + 1))) else None
    case Reacquiring(k, j) =>
      if j == n then Some(Goto(s, c, Idle))
      else if l.want[j] == 0 then Some(Goto(s, c, Reacquiring(k, j + 1)))
      else if l.list[j] !in s.owner then Some(Take(s, c, j, Reacquiring(k, j + 1))) else None
  }

  /** One step of connection c: a call from outside, or progress inside a call. */
  ghost predicate Step(s: State, s': State, c: Conn) {
    && c in s.conns && Shaped(s.conns[c])
    && if s.conns[c].pc.Idle? then
         exists k: nat :: k < |s.conns[c].list| &&
           (s' == EnterCall(s, c, k) || (s.conns[c].want[k] > 0 && s' == LeaveCall(s, c, k)))
       else Advance(s, c) == Some(s')
  }

  // ---------------------------------------------------------------- the invariant

  /** Which Btrees hold their mutex, given what is wanted and how far the call has come. */
  predicate ShouldHold(l: Local, i: nat)
    requires i < |l.want|
  {
    match l.pc
    case Idle => l.want[i] > 0
    case Trying(k) => i != k && l.want[i] > 0
    case Releasing(k, j) => i != k && (i < k || i >= j) && l.want[i] > 0
    case Blocking(k) => i < k && l.want[i] > 0
    case Reacquiring(k, j) => i < j && l.want[i] > 0
  }

  ghost predicate Inv(s: State) {
    forall c {:trigger s.conns[c]} :: c in s.conns ==> ConnInv(s, c)
  }

  /** For each sharable Btree: locked exactly when its connection owns the mutex, exactly when the
      protocol says so; and BtShared.db names the owner. */
  ghost predicate ConnInv(s: State, c: Conn)
    requires c in s.conns
  {
    var l := s.conns[c];
    && Shaped(l)
    && (!l.pc.Idle? ==> l.want[l.pc.k] > 0)
    && (forall i {:trigger l.locked[i]} {:trigger l.list[i]} :: 0 <= i < |l.list| ==>
         && (l.locked[i] <==> ShouldHold(l, i))
         && (l.locked[i] <==> Owns(s, c, l.list[i]))
         && (l.locked[i] ==> l.list[i] in s.db && s.db[l.list[i]] == c))
    && (forall a {:trigger s.owner[a]} :: a in s.owner && s.owner[a] == c ==> a in l.list)
  }

  predicate Owns(s: State, c: Conn, a: Addr) {
    a in s.owner && s.owner[a] == c
  }

  ghost predicate OwnersExist(s: State) {
    forall a {:trigger s.owner[a]} :: a in s.owner ==> s.owner[a] in s.conns
  }

  lemma Distinct(s: seq<Addr>, i: nat, j: nat)
    requires Sorted(s) && i < |s| && j < |s| && i != j
    ensures s[i] != s[j]
  {
  }

  /** Whatever c does to itself, every other connection keeps its part of the invariant as long as
      nobody else's mutexes change hands. */
  lemma OthersKeep(s: State, s': State, c: Conn)
    requires Inv(s) && c in s.conns
    requires s'.conns.Keys == s.conns.Keys && ConnInv(s', c)
    requires forall d {:trigger s'.conns[d]} :: d in s.conns && d != c ==> s'.conns[d] == s.conns[d]
    requires forall d, a {:trigger Owns(s', d, a)} {:trigger Owns(s, d, a)} :: d != c ==>
      (Owns(s', d, a) <==> Owns(s, d, a))
    requires forall d, a {:trigger Owns(s, d, a)} :: d != c && Owns(s, d, a) && a in s.db ==>
      a in s'.db && s'.db[a] == s.db[a]
    ensures Inv(s')
  {
    forall d {:trigger s'.conns[d]} | d in s'.conns
      ensures ConnInv(s', d)
    {
      if d != c {
        assert ConnInv(s, d);
        forall a {:trigger s'.owner[a]} | a in s'.owner && s'.owner[a] == d
          ensures a in s'.conns[d].list
        {
          assert Owns(s', d, a);
        }
      }
    }
  }

  lemma TakeKeeps(s: State, c: Conn, k: nat, pc: Pc)
    requires Inv(s) && c in s.conns && k < |s.conns[c].list| && s.conns[c].list[k] !in s.owner
    requires Shaped(s.conns[c].(pc := pc)) && (!pc.Idle? ==> s.conns[c].want[pc.k] > 0)
    requires var l := s.conns[c]; var l' := l.(pc := pc);
      forall i :: 0 <= i < |l.list| ==> (ShouldHold(l', i) <==> i == k || ShouldHold(l, i))
    ensures Inv(Take(s, c, k, pc))
  {
    var s' := Take(s, c, k, pc);
    var l := s.conns[c];
    assert ConnInv(s, c);
    forall i | 0 <= i < |l.list| && i != k
      ensures l.list[i] != l.list[k]
    {
      Distinct(l.list, i, k);
    }
    assert ConnInv(s', c);
    OthersKeep(s, s', c);
  }

  lemma DropKeeps(s: State, c: Conn, k: nat, pc: Pc)
    requires Inv(s) && c in s.conns && k < |s.conns[c].list| && s.conns[c].locked[k]
    requires Shaped(s.conns[c].(pc := pc)) && (!pc.Idle? ==> s.conns[c].want[pc.k] > 0)
    requires var l := s.conns[c]; var l' := l.(pc := pc);
      forall i :: 0 <= i < |l.list| ==> (ShouldHold(l', i) <==> i != k && ShouldHold(l, i))
    ensures Inv(Drop(s, c, k, pc))
  {
    var s' := Drop(s, c, k, pc);
    forall d {:trigger s'.conns[d]} | d in s'.conns
      ensures ConnInv(s', d)
    {
      assert ConnInv(s, d) && ConnInv(s, c);
    }
  }

  lemma GotoKeeps(s: State, c: Conn, pc: Pc)
    requires Inv(s) && c in s.conns
    requires Shaped(s.conns[c].(pc := pc)) && (!pc.Idle? ==> s.conns[c].want[pc.k] > 0)
    requires var l := s.conns[c]; var l' := l.(pc := pc);
      forall i :: 0 <= i < |l.list| ==> (ShouldHold(l', i) <==> ShouldHold(l, i))
    ensures Inv(Goto(s, c, pc))
  {
    var s' := Goto(s, c, pc);
    assert ConnInv(s, c);
    assert forall d, a :: Owns(s', d, a) <==> Owns(s, d, a);
    OthersKeep(s, s', c);
  }

  lemma EnterCallKeeps(s: State, c: Conn, k: nat)
    requires Inv(s) && c in s.conns && k < |s.conns[c].list| && s.conns[c].pc.Idle?
    ensures Inv(EnterCall(s, c, k))
  {
    var s' := EnterCall(s, c, k);
    assert ConnInv(s, c);
    assert s.conns[c].locked[k] <==> s.conns[c].want[k] > 0;
    assert forall d, a :: Owns(s', d, a) <==> Owns(s, d, a);
    OthersKeep(s, s', c);
  }

  lemma LeaveCallKeeps(s: State, c: Conn, k: nat)
    requires Inv(s) && c in s.conns && k < |s.conns[c].list| && s.conns[c].pc.Idle? && s.conns[c].want[k] > 0
    ensures Inv(LeaveCall(s, c, k))
  {
    var s' := LeaveCall(s, c, k);
    var l := s.conns[c];
    assert ConnInv(s, c);
    assert l.locked[k] && Owns(s, c, l.list[k]);
    forall d, a | d != c
      ensures Owns(s', d, a) <==> Owns(s, d, a)
    {
    }
    if l.want[k] == 1 {
      forall i | 0 <= i < |l.list| && i != k
        ensures l.list[i] != l.list[k]
      {
        Distinct(l.list, i, k);
      }
    }
    OthersKeep(s, s', c);
  }

  lemma ReleasingKeeps(s: State, c: Conn)
    requires Inv(s) && c in s.conns && s.conns[c].pc.Releasing?
    ensures Shaped(s.conns[c]) && Advance(s, c).Some? && Inv(Advance(s, c).value)
  {
    ConnWants(s, c);
    hide ConnInv, Inv, Take, Drop, Goto;
    var l := s.conns[c];
    var k, j := l.pc.k, l.pc.j;
    if j == |l.list| {
      GotoKeeps(s, c, Blocking(k));
    } else {
      ConnFacts(s, c, j);
      if l.locked[j] {
        DropKeeps(s, c, j, Releasing(k, j + 1));
      } else {
        GotoKeeps(s, c, Releasing(k, j + 1));
      }
    }
  }

  lemma ReacquiringKeeps(s: State, c: Conn)
    requires Inv(s) && c in s.conns && s.conns[c].pc.Reacquiring?
    ensures Shaped(s.conns[c]) && (Advance(s, c).Some? ==> Inv(Advance(s, c).value))
  {
    ConnWants(s, c);
    var l := s.conns[c];
    var j := l.pc.j;
    if j == |l.list| {
      ReacquiredAll(s, c);
    } else if l.want[j] == 0 {
      SkipsUnwanted(s, c);
    } else if l.list[j] !in s.owner {
      TakesNext(s, c);
    }
    hide ConnInv, Inv, Take, Drop, Goto, Shaped;
  }

  lemma ReacquiredAll(s: State, c: Conn)
    requires Inv(s) && c in s.conns && s.conns[c].pc.Reacquiring? && s.conns[c].pc.j == |s.conns[c].list|
    ensures Inv(Goto(s, c, Idle))
  {
    ConnWants(s, c);
    hide ConnInv, Inv, Goto;
    GotoKeeps(s, c, Idle);
  }

  lemma SkipsUnwanted(s: State, c: Conn)
    requires Inv(s) && c in s.conns && s.conns[c].pc.Reacquiring? && Shaped(s.conns[c])
    requires s.conns[c].pc.j < |s.conns[c].list| && s.conns[c].want[s.conns[c].pc.j] == 0
    ensures Inv(Goto(s, c, Reacquiring(s.conns[c].pc.k, s.conns[c].pc.j + 1)))
  {
    ConnWants(s, c);
    hide ConnInv, Inv, Goto;
    GotoKeeps(s, c, Reacquiring(s.conns[c].pc.k, s.conns[c].pc.j + 1));
  }

  lemma TakesNext(s: State, c: Conn)
    requires Inv(s) && c in s.conns && s.conns[c].pc.Reacquiring? && Shaped(s.conns[c])
    requires s.conns[c].pc.j < |s.conns[c].list| && s.conns[c].want[s.conns[c].pc.j] > 0
    requires s.conns[c].list[s.conns[c].pc.j] !in s.owner
    ensures Inv(Take(s, c, s.conns[c].pc.j, Reacquiring(s.conns[c].pc.k, s.conns[c].pc.j + 1)))
  {
    ConnWants(s, c);
    hide ConnInv, Inv, Take;
    TakeKeeps(s, c, s.conns[c].pc.j, Reacquiring(s.conns[c].pc.k, s.conns[c].pc.j + 1));
  }

  lemma AdvanceKeeps(s: State, c: Conn)
    requires Inv(s) && c in s.conns && !s.conns[c].pc.Idle?
    ensures Shaped(s.conns[c]) && (Advance(s, c).Some? ==> Inv(Advance(s, c).value))
  {
    ConnWants(s, c);
    hide ConnInv, Inv, Take, Drop, Goto;
    var l := s.conns[c];
    match l.pc
    case Trying(k) =>
      if l.list[k] !in s.owner {
        TakeKeeps(s, c, k, Idle);
      } else {
        GotoKeeps(s, c, AfterRelease(k, |l.list|));
      }
    case Releasing(_, _) => ReleasingKeeps(s, c);
    case Blocking(k) =>
      if l.list[k] !in s.owner {
        TakeKeeps(s, c, k, Reacquiring(k, k + 1));
      }
    case Reacquiring(_, _) => ReacquiringKeeps(s, c);
  }

  lemma ConnFacts(s: State, c: Conn, i: nat)
    requires Inv(s) && c in s.conns && i < |s.conns[c].list|
    ensures Shaped(s.conns[c])
    ensures s.conns[c].locked[i] <==> ShouldHold(s.conns[c], i)
    ensures s.conns[c].locked[i] <==> Owns(s, c, s.conns[c].list[i])
    ensures s.conns[c].locked[i] ==> s.conns[c].list[i] in s.db && s.db[s.conns[c].list[i]] == c
  {
    assert ConnInv(s, c);
  }

  lemma ConnWants(s: State, c: Conn)
    requires Inv(s) && c in s.conns
    ensures Shaped(s.conns[c]) && (!s.conns[c].pc.Idle? ==> s.conns[c].want[s.conns[c].pc.k] > 0)
  {
    assert ConnInv(s, c);
  }

  /** Every step of every connection keeps the invariant. */
  lemma StepKeeps(s: State, s': State, c: Conn)
    requires Inv(s) && OwnersExist(s) && Step(s, s', c)
    ensures Inv(s') && OwnersExist(s')
  {
    hide Inv, ConnInv, ShouldHold;
    if s.conns[c].pc.Idle? {
      var k: nat :| k < |s.conns[c].list| &&
        (s' == EnterCall(s, c, k) || (s.conns[c].want[k] > 0 && s' == LeaveCall(s, c, k)));
      if s' == EnterCall(s, c, k) {
        EnterCallKeeps(s, c, k);
      } else {
        LeaveCallKeeps(s, c, k);
      }
    } else {
      AdvanceKeeps(s, c);
    }
  }

  // ---------------------------------------------------------------- runs

  ghost predicate Initial(s: State) {
    && s.owner == map[]
    && forall c {:trigger s.conns[c]} :: c in s.conns ==>
         Shaped(s.conns[c]) && s.conns[c].pc.Idle?
         && forall i :: 0 <= i < |s.conns[c].list| ==> s.conns[c].want[i] == 0 && !s.conns[c].locked[i]
  }

  /** A run: who[i] takes the step from trace[i] to trace[i + 1]. */
  ghost predicate Run(trace: seq<State>, who: seq<Conn>) {
    && |trace| == |who| + 1
    && forall i {:trigger who[i]} :: 0 <= i < |who| ==> Step(trace[i], trace[i + 1], who[i])
  }

  lemma {:induction false} RunKeeps(trace: seq<State>, who: seq<Conn>, n: nat)
    requires Run(trace, who) && Initial(trace[0]) && n < |trace|
    ensures Inv(trace[n]) && OwnersExist(trace[n])
  {
    if n > 0 {
      RunKeeps(trace, who, n - 1);
      assert Step(trace[n - 1], trace[n], who[n - 1]);
      StepKeeps(trace[n - 1], trace[n], who[n - 1]);
    }
  }

  /** Between calls, in every reachable state: locked exactly when wanted, exactly when the mutex is
      owned, and then BtShared.db is the connection. */
  lemma BetweenCalls(trace: seq<State>, who: seq<Conn>, n: nat, c: Conn, i: nat)
    requires Run(trace, who) && Initial(trace[0]) && n < |trace|
    requires c in trace[n].conns && trace[n].conns[c].pc.Idle? && i < |trace[n].conns[c].list|
    ensures var s := trace[n]; var l := s.conns[c]; var a := l.list[i];
      && |l.want| == |l.locked| == |l.list|
      && (l.locked[i] <==> l.want[i] > 0)
      && (l.locked[i] <==> Owns(s, c, a))
      && (l.locked[i] <==> Owns(s, c, a) && a in s.db && s.db[a] == c)
  {
    RunKeeps(trace, who, n);
    ConnFacts(trace[n], c, i);
  }

  /** A step of one connection leaves every other connection's record as it was. */
  lemma StepIsLocal(s: State, s': State, c: Conn, d: Conn)
    requires Step(s, s', c) && d != c
    ensures d in s.conns <==> d in s'.conns
    ensures d in s.conns ==> s'.conns[d] == s.conns[d]
  {
  }

  /** Inside a call only pc and locked change, never what is wanted. */
  lemma AdvanceWants(s: State, c: Conn)
    requires c in s.conns && Shaped(s.conns[c]) && !s.conns[c].pc.Idle? && Advance(s, c).Some?
    ensures c in Advance(s, c).value.conns
    ensures Advance(s, c).value.conns[c].want == s.conns[c].want
    ensures Advance(s, c).value.conns[c].list == s.conns[c].list
  {
  }

  /** From the step that enters Btree k until the call returns, whatever the others do meanwhile. */
  ghost predicate Call(trace: seq<State>, who: seq<Conn>, c: Conn, k: nat, n: nat) {
    && Run(trace, who) && 0 < n < |trace|
    && c in trace[0].conns && trace[0].conns[c].pc.Idle? && Shaped(trace[0].conns[c]) && k < |trace[0].conns[c].list|
    && who[0] == c && trace[1] == EnterCall(trace[0], c, k)
    && forall i :: 1 <= i < n ==> c in trace[i].conns && !trace[i].conns[c].pc.Idle?
  }

  lemma {:induction false} CallWants(trace: seq<State>, who: seq<Conn>, c: Conn, k: nat, n: nat, m: nat)
    requires Call(trace, who, c, k, n) && 1 <= m <= n
    ensures c in trace[m].conns && trace[m].conns[c].list == trace[0].conns[c].list
    ensures trace[m].conns[c].want == trace[0].conns[c].want[k := trace[0].conns[c].want[k] + 1]
  {
    if m > 1 {
      CallWants(trace, who, c, k, n, m - 1);
      assert Step(trace[m - 1], trace[m], who[m - 1]);
      if who[m - 1] == c {
        AdvanceWants(trace[m - 1], c);
      } else {
        StepIsLocal(trace[m - 1], trace[m], who[m - 1], c);
      }
    }
  }

  /** sqlite3BtreeEnter, with any interference and through any number of releases and reacquisitions:
      on return the count of k alone has grown by one, k is held, and so is every Btree still wanted. */
  lemma EnterEstablishes(trace: seq<State>, who: seq<Conn>, c: Conn, k: nat, n: nat, i: nat)
    requires Call(trace, who, c, k, n) && Inv(trace[0]) && OwnersExist(trace[0])
    requires c in trace[n].conns && trace[n].conns[c].pc.Idle? && i < |trace[0].conns[c].list|
    ensures var l := trace[0].conns[c]; var l' := trace[n].conns[c];
      && l'.list == l.list && |l'.locked| == |l.list|
      && l'.want == l.want[k := l.want[k] + 1]
      && (l'.locked[i] <==> i == k || l.want[i] > 0)
      && (l'.locked[i] <==> Owns(trace[n], c, l.list[i]))
  {
    CallWants(trace, who, c, k, n, n);
    RunFrom(trace, who, n);
    ConnFacts(trace[n], c, i);
  }

  lemma {:induction false} RunFrom(trace: seq<State>, who: seq<Conn>, n: nat)
    requires Run(trace, who) && Inv(trace[0]) && OwnersExist(trace[0]) && n < |trace|
    ensures Inv(trace[n]) && OwnersExist(trace[n])
  {
    if n > 0 {
      RunFrom(trace, who, n - 1);
      assert Step(trace[n - 1], trace[n], who[n - 1]);
      StepKeeps(trace[n - 1], trace[n], who[n - 1]);
    }
  }

  /** Leave undoes Enter: when Enter has returned, leaving the same Btree gives back the counts from
      before, and the connection again owns exactly the mutexes it owned then. */
  lemma LeaveUndoesEnter(trace: seq<State>, who: seq<Conn>, c: Conn, k: nat, n: nat, i: nat)
    requires Call(trace, who, c, k, n) && Inv(trace[0]) && OwnersExist(trace[0])
    requires c in trace[n].conns && trace[n].conns[c].pc.Idle? && i < |trace[0].conns[c].list|
    ensures Shaped(trace[n].conns[c]) && k < |trace[n].conns[c].list| && trace[n].conns[c].want[k] > 0
    ensures var s' := LeaveCall(trace[n], c, k);
      && c in s'.conns
      && s'.conns[c] == trace[0].conns[c]
      && (Owns(s', c, trace[0].conns[c].list[i]) <==> Owns(trace[0], c, trace[0].conns[c].list[i]))
  {
    var l := trace[0].conns[c];
    EnterEstablishes(trace, who, c, k, n, k);
    RunFrom(trace, who, n);
    ConnWants(trace[n], c);
    LeaveCallKeeps(trace[n], c, k);
    var s' := LeaveCall(trace[n], c, k);
    hide Run, Owns;
    forall j | 0 <= j < |l.list|
      ensures s'.conns[c].locked[j] == l.locked[j]
    {
      ConnFacts(s', c, j);
      ConnFacts(trace[0], c, j);
    }
    assert s'.conns[c].want == l.want;
    assert s'.conns[c].locked == l.locked;
    ConnFacts(s', c, i);
    ConnFacts(trace[0], c, i);
  }

  // ---------------------------------------------------------------- the assertions in the C code

  /** Those of lockBtreeMutex when it is called, of unlockBtreeMutex, and of sqlite3BtreeEnter. */
  lemma AssertionsHold(s: State, c: Conn, i: nat)
    requires Inv(s) && c in s.conns && i < |s.conns[c].list|
    ensures Shaped(s.conns[c])
    ensures WaitsFor(s.conns[c]) == Some(s.conns[c].list[i]) ==>
      !s.conns[c].locked[i] && !Owns(s, c, s.conns[c].list[i])
    ensures s.conns[c].locked[i] ==>
      Owns(s, c, s.conns[c].list[i]) && s.conns[c].list[i] in s.db && s.db[s.conns[c].list[i]] == c
    ensures s.conns[c].locked[i] ==> s.conns[c].want[i] > 0
    ensures s.conns[c].pc.Idle? && s.conns[c].want[i] > 0 ==> s.conns[c].locked[i]
  {
    var l := s.conns[c];
    ConnFacts(s, c, i);
    if WaitsFor(l) == Some(l.list[i]) {
      var w := if l.pc.Blocking? then l.pc.k else l.pc.j;
      if w != i {
        Distinct(l.list, w, i);
      }
    }
  }

  // ---------------------------------------------------------------- no deadlock

  /** A connection is stuck when it waits for a mutex that somebody owns. */
  ghost predicate Stuck(s: State, c: Conn) {
    c in s.conns && Shaped(s.conns[c]) && WaitsFor(s.conns[c]).Some? && WaitsFor(s.conns[c]).value in s.owner
  }

  lemma StuckMeansNoStep(s: State, c: Conn)
    requires c in s.conns && Shaped(s.conns[c])
    ensures Stuck(s, c) <==> !s.conns[c].pc.Idle? && Advance(s, c).None?
  {
  }

  /** A connection waiting for a mutex holds only mutexes of smaller address, even in the middle of
      releasing and reacquiring. */
  lemma HoldsOnlySmaller(s: State, c: Conn, b: Addr)
    requires Inv(s) && c in s.conns && Shaped(s.conns[c]) && WaitsFor(s.conns[c]).Some?
    requires Owns(s, c, b)
    ensures b < WaitsFor(s.conns[c]).value
  {
    var l := s.conns[c];
    assert ConnInv(s, c);
    assert s.owner[b] == c;
    assert b in l.list;
    var i: nat :| i < |l.list| && l.list[i] == b;
    ConnFacts(s, c, i);
    assert ShouldHold(l, i);
    var w := if l.pc.Blocking? then l.pc.k else l.pc.j;
    assert i < w;
  }

  /** The owned mutexes above a. */
  ghost function Above(s: State, a: Addr): set<Addr> {
    set b | b in s.owner && b > a
  }

  /** c waits for a mutex that d owns. */
  ghost predicate WaitsOn(s: State, c: Conn, d: Conn) {
    Stuck(s, c) && s.owner[WaitsFor(s.conns[c]).value] == d
  }

  /** Following who waits for whom, from any connection, always ends at a connection that is not
      stuck: the waits-for relation has no cycle, whatever the number of connections. */
  lemma {:induction false} WaitChainEnds(s: State, c: Conn) returns (path: seq<Conn>)
    requires Inv(s) && OwnersExist(s) && c in s.conns
    ensures |path| > 0 && path[0] == c
    ensures forall i :: 0 <= i < |path| - 1 ==> WaitsOn(s, path[i], path[i + 1])
    ensures path[|path| - 1] in s.conns && !Stuck(s, path[|path| - 1])
    decreases if Stuck(s, c) then 1 + |Above(s, WaitsFor(s.conns[c]).value)| else 0
  {
    if !Stuck(s, c) {
      path := [c];
    } else {
      var a := WaitsFor(s.conns[c]).value;
      var d := s.owner[a];
      assert Owns(s, d, a);
      if Stuck(s, d) {
        HoldsOnlySmaller(s, d, a);
        var b := WaitsFor(s.conns[d]).value;
        assert b in Above(s, a) && b !in Above(s, b);
        assert Above(s, b) < Above(s, a);
        SmallerSet(Above(s, b), Above(s, a));
      }
      var rest := WaitChainEnds(s, d);
      path := [c] + rest;
    }
  }

  lemma SmallerSet(a: set<Addr>, b: set<Addr>)
    requires a < b
    ensures |a| < |b|
  {
    assert b == a + (b - a);
    assert b - a != {};
  }

  /** No reachable state is deadlocked: whatever set of stuck connections c is taken from, one of
      them waits for a connection outside the set. */
  lemma NoDeadlock(trace: seq<State>, who: seq<Conn>, n: nat, stuck: set<Conn>, c: Conn)
    requires Run(trace, who) && Initial(trace[0]) && n < |trace|
    requires c in stuck && forall d :: d in stuck ==> Stuck(trace[n], d)
    ensures exists d, e :: d in stuck && e !in stuck && WaitsOn(trace[n], d, e)
  {
    RunKeeps(trace, who, n);
    var path := WaitChainEnds(trace[n], c);
    LeavesSet(trace[n], path, stuck);
  }

  lemma {:induction false} LeavesSet(s: State, path: seq<Conn>, stuck: set<Conn>)
    requires |path| > 0 && path[0] in stuck && path[|path| - 1] !in stuck
    requires forall i :: 0 <= i < |path| - 1 ==> WaitsOn(s, path[i], path[i + 1])
    ensures exists c, d :: c in stuck && d !in stuck && WaitsOn(s, c, d)
  {
    assert WaitsOn(s, path[0], path[1]);
    if path[1] in stuck {
      forall i | 0 <= i < |path[1..]| - 1
        ensures WaitsOn(s, path[1..][i], path[1..][i + 1])
      {
        assert WaitsOn(s, path[i + 1], path[i + 2]);
      }
      LeavesSet(s, path[1..], stuck);
    }
  }

  // ---------------------------------------------------------------- progress

  /** An upper bound on the steps left in the current call. */
  function Remaining(l: Local): nat
    requires Shaped(l)
  {
    var n := |l.list|;
    match l.pc
    case Idle => 0
    case Trying(k) => 2 * n + 4
    case Releasing(k, j) => n + 3 + (n - j)
    case Blocking(k) => n + 2
    case Reacquiring(k, j) => 1 + (n - j)
  }

  /** Each step inside a call brings its end nearer: a call that is not stuck for ever returns. */
  lemma CallsEnd(s: State, c: Conn)
    requires Inv(s) && c in s.conns && !s.conns[c].pc.Idle?
    ensures Shaped(s.conns[c])
    ensures Advance(s, c).Some? ==>
      var s' := Advance(s, c).value;
      c in s'.conns && Shaped(s'.conns[c]) && Remaining(s'.conns[c]) < Remaining(s.conns[c])
  {
    ConnWants(s, c);
    AdvanceKeeps(s, c);
    if Advance(s, c).Some? {
      AdvanceWants(s, c);
      ConnWants(Advance(s, c).value, c);
    }
  }
}
