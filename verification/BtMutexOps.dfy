/** The operations on mutexes that entering and leaving a Btree consists of, and why every run of the
    protocol performs just these. */
module BtMutexOps {
  import opened BtMutexProtocol

  /** What a connection does to a mutex: try without blocking, with its outcome; wait until it has it;
      give it back. */
  datatype Op = Try(a: Addr, ok: bool) | Enter(a: Addr) | Leave(a: Addr)

  /** The mutexes given up from place j on. */
  function Releases(l: Local, j: nat): seq<Op>
    requires |l.locked| == |l.list|
    decreases |l.list| - j
  {
    if j >= |l.list| then [] else (if l.locked[j] then [Leave(l.list[j])] else []) + Releases(l, j + 1)
  }

  /** The mutexes taken back from place j on, in address order. */
  function Retakes(l: Local, j: nat): seq<Op>
    requires |l.want| == |l.list|
    decreases |l.list| - j
  {
    if j >= |l.list| then [] else (if l.want[j] > 0 then [Enter(l.list[j])] else []) + Retakes(l, j + 1)
  }

  /** All that sqlite3BtreeEnter does to mutexes for Btree k, when the first try ends with ok. */
  function EnterOps(l: Local, k: nat, ok: bool): seq<Op>
    requires |l.want| == |l.locked| == |l.list| && k < |l.list|
  {
    if l.locked[k] then []
    else if ok then [Try(l.list[k], true)]
    else [Try(l.list[k], false)] + Releases(l, k + 1) + [Enter(l.list[k])] + Retakes(l, k + 1)
  }

  /** And sqlite3BtreeLeave. */
  function LeaveOps(l: Local, k: nat): seq<Op>
    requires |l.want| == |l.list| && k < |l.list|
  {
    if l.want[k] == 1 then [Leave(l.list[k])] else []
  }

  /** What a step inside a call does. */
  function StepOps(l: Local, free: bool): seq<Op>
    requires Shaped(l)
  {
    match l.pc
    case Idle => []
    case Trying(k) => [Try(l.list[k], free)]
    case Releasing(_, j) => if j < |l.list| && l.locked[j] then [Leave(l.list[j])] else []
    case Blocking(k) => [Enter(l.list[k])]
    case Reacquiring(_, j) => if j < |l.list| && l.want[j] > 0 then [Enter(l.list[j])] else []
  }

  /** Whether the mutex a connection tries is free. */
  predicate Free(s: State, c: Conn)
    requires c in s.conns && Shaped(s.conns[c])
  {
    s.conns[c].pc.Trying? ==> s.conns[c].list[s.conns[c].pc.k] !in s.owner
  }

  /** What c does in step i. */
  ghost function OpsAt(trace: seq<State>, who: seq<Conn>, c: Conn, i: nat): seq<Op>
    requires Run(trace, who) && i < |who|
  {
    assert Step(trace[i], trace[i + 1], who[i]);
    if who[i] == c then StepOps(trace[i].conns[c], Free(trace[i], c)) else []
  }

  /** What c has done from state 1 of the trace to state m. */
  ghost function OpsOf(trace: seq<State>, who: seq<Conn>, c: Conn, m: nat): seq<Op>
    requires Run(trace, who) && m < |trace|
  {
    if m <= 1 then [] else OpsOf(trace, who, c, m - 1) + OpsAt(trace, who, c, m - 1)
  }

  /** What is still to be done, from a point of the call past the first try. */
  function Due(l: Local, pc: Pc): seq<Op>
    requires |l.want| == |l.locked| == |l.list| && (!pc.Idle? ==> pc.k < |l.list|)
  {
    match pc
    case Idle => []
    case Trying(_) => []
    case Releasing(k, j) => Releases(l, j) + [Enter(l.list[k])] + Retakes(l, k + 1)
    case Blocking(k) => [Enter(l.list[k])] + Retakes(l, k + 1)
    case Reacquiring(_, j) => Retakes(l, j)
  }

  /** While later mutexes are given up, those not yet reached are as they were before the call. */
  ghost predicate Untouched(l0: Local, l: Local)
    requires |l0.locked| == |l.locked|
  {
    (l.pc.Trying? ==> l.locked == l0.locked)
    && (l.pc.Releasing? ==> forall i :: l.pc.j <= i < |l.locked| ==> l.locked[i] == l0.locked[i])
  }

  /** How far a call has come: what has been done and what is due make up EnterOps. */
  ghost predicate OnTrack(l0: Local, k: nat, l: Local, done: seq<Op>)
    requires |l0.want| == |l0.locked| == |l0.list| && k < |l0.list|
  {
    && Shaped(l) && l.list == l0.list && l.want == l0.want[k := l0.want[k] + 1] && Untouched(l0, l)
    && (!l.pc.Idle? ==> l.pc.k == k)
    && match l.pc
       case Idle => done == EnterOps(l0, k, true) || done == EnterOps(l0, k, false)
       case Trying(_) => done == [] && !l0.locked[k]
       case _ => !l0.locked[k] && done + Due(l0, l.pc) == EnterOps(l0, k, false)
  }

  /** A step of c inside the call keeps it on track. */
  lemma AdvanceOnTrack(s: State, c: Conn, l0: Local, k: nat, done: seq<Op>)
    requires c in s.conns && Shaped(s.conns[c]) && !s.conns[c].pc.Idle? && Advance(s, c).Some?
    requires |l0.want| == |l0.locked| == |l0.list| && k < |l0.list| && OnTrack(l0, k, s.conns[c], done)
    ensures c in Advance(s, c).value.conns
    ensures OnTrack(l0, k, Advance(s, c).value.conns[c], done + StepOps(s.conns[c], Free(s, c)))
  {
    match s.conns[c].pc
    case Trying(_) => TryOnTrack(s, c, l0, k);
    case Releasing(_, _) => ReleaseOnTrack(s, c, l0, k, done);
    case Blocking(_) => WaitOnTrack(s, c, l0, k, done);
    case Reacquiring(_, _) => RetakeOnTrack(s, c, l0, k, done);
    hide OnTrack, Advance, StepOps;
  }

  lemma ReleaseOnTrack(s: State, c: Conn, l0: Local, k: nat, done: seq<Op>)
    requires c in s.conns && Shaped(s.conns[c]) && s.conns[c].pc.Releasing?
    requires |l0.want| == |l0.locked| == |l0.list| && k < |l0.list| && OnTrack(l0, k, s.conns[c], done)
    ensures Advance(s, c).Some? && c in Advance(s, c).value.conns
    ensures OnTrack(l0, k, Advance(s, c).value.conns[c], done + StepOps(s.conns[c], Free(s, c)))
  {
    var l := s.conns[c];
    var j, ops := l.pc.j, StepOps(l, Free(s, c));
    hide EnterOps, Retakes;
    assert done + (Releases(l0, j) + [Enter(l0.list[k])] + Retakes(l0, k + 1)) == EnterOps(l0, k, false);
    assert Releases(l0, j) == if j < |l.list| then ops + Releases(l0, j + 1) else [];
    hide Releases;
    if j < |l.list| {
      Regroup4(done, ops, Releases(l0, j + 1), [Enter(l0.list[k])], Retakes(l0, k + 1));
    } else {
      assert ops == [];
      var due := [Enter(l0.list[k])] + Retakes(l0, k + 1);
      assert done + ops + due == done + ([] + [Enter(l0.list[k])] + Retakes(l0, k + 1));
    }
  }

  lemma WaitOnTrack(s: State, c: Conn, l0: Local, k: nat, done: seq<Op>)
    requires c in s.conns && Shaped(s.conns[c]) && s.conns[c].pc.Blocking? && Advance(s, c).Some?
    requires |l0.want| == |l0.locked| == |l0.list| && k < |l0.list| && OnTrack(l0, k, s.conns[c], done)
    ensures c in Advance(s, c).value.conns
    ensures OnTrack(l0, k, Advance(s, c).value.conns[c], done + StepOps(s.conns[c], Free(s, c)))
  {
    hide EnterOps, Retakes, Releases;
    var ops := [Enter(l0.list[k])];
    assert done + ops + Retakes(l0, k + 1) == done + (ops + Retakes(l0, k + 1));
  }

  lemma RetakeOnTrack(s: State, c: Conn, l0: Local, k: nat, done: seq<Op>)
    requires c in s.conns && Shaped(s.conns[c]) && s.conns[c].pc.Reacquiring? && Advance(s, c).Some?
    requires |l0.want| == |l0.locked| == |l0.list| && k < |l0.list| && OnTrack(l0, k, s.conns[c], done)
    ensures c in Advance(s, c).value.conns
    ensures OnTrack(l0, k, Advance(s, c).value.conns[c], done + StepOps(s.conns[c], Free(s, c)))
  {
    hide EnterOps, Releases;
    var l := s.conns[c];
    var j, ops := l.pc.j, StepOps(l, Free(s, c));
    if j < |l.list| {
      assert Retakes(l0, j) == ops + Retakes(l0, j + 1);
      assert done + ops + Retakes(l0, j + 1) == done + (ops + Retakes(l0, j + 1));
    } else {
      assert ops == [] && Retakes(l0, j) == [] && done + [] == done;
    }
  }

  lemma Regroup4(a: seq<Op>, b: seq<Op>, c: seq<Op>, d: seq<Op>, e: seq<Op>)
    ensures a + b + (c + d + e) == a + ((b + c) + d + e)
  {
  }

  lemma TryOnTrack(s: State, c: Conn, l0: Local, k: nat)
    requires c in s.conns && Shaped(s.conns[c]) && s.conns[c].pc.Trying?
    requires |l0.want| == |l0.locked| == |l0.list| && k < |l0.list| && OnTrack(l0, k, s.conns[c], [])
    ensures Advance(s, c).Some? && c in Advance(s, c).value.conns
    ensures OnTrack(l0, k, Advance(s, c).value.conns[c], [] + StepOps(s.conns[c], Free(s, c)))
  {
    var l := s.conns[c];
    var ops := [] + StepOps(l, Free(s, c));
    assert ops == [Try(l.list[k], Free(s, c))];
    if !Free(s, c) {
      if k + 1 < |l.list| {
        assert ops + (Releases(l0, k + 1) + [Enter(l0.list[k])] + Retakes(l0, k + 1)) == EnterOps(l0, k, false);
      } else {
        assert Releases(l0, k + 1) == [] && ops + ([Enter(l0.list[k])] + Retakes(l0, k + 1)) == EnterOps(l0, k, false);
      }
    }
  }

  lemma {:induction false} CallOnTrack(trace: seq<State>, who: seq<Conn>, c: Conn, k: nat, n: nat, m: nat)
    requires Call(trace, who, c, k, n) && 1 <= m <= n
    ensures c in trace[m].conns && OnTrack(trace[0].conns[c], k, trace[m].conns[c], OpsOf(trace, who, c, m))
  {
    var l0 := trace[0].conns[c];
    if m > 1 {
      CallOnTrack(trace, who, c, k, n, m - 1);
      assert Step(trace[m - 1], trace[m], who[m - 1]);
      if who[m - 1] == c {
        hide OnTrack;
        AdvanceOnTrack(trace[m - 1], c, l0, k, OpsOf(trace, who, c, m - 1));
      } else {
        StepIsLocal(trace[m - 1], trace[m], who[m - 1], c);
        assert OpsOf(trace, who, c, m - 1) + [] == OpsOf(trace, who, c, m - 1);
      }
    }
  }

  /** In every run and with any interference, what a call of sqlite3BtreeEnter does to mutexes is what
      EnterOps says. */
  lemma CallDoes(trace: seq<State>, who: seq<Conn>, c: Conn, k: nat, n: nat)
    requires Call(trace, who, c, k, n) && c in trace[n].conns && trace[n].conns[c].pc.Idle?
    ensures var l := trace[0].conns[c]; var ops := OpsOf(trace, who, c, n);
      ops == EnterOps(l, k, true) || ops == EnterOps(l, k, false)
  {
    CallOnTrack(trace, who, c, k, n, n);
  }
}
