/** The parser as a machine on unbounded stacks: one move is one shift or one reduction. */
module ParserMachine {
  import opened Wrappers
  import opened ParserTables
  import opened ParserProof

  /** Places of the stack, the bottom included. */
  const YYSTACKDEPTH := 100

  /** How a call of sqlite3Parser ends; Unfinished when it was stopped after the given number of turns. */
  datatype Outcome = Shifted | Accepted | Rejected | Overflowed | Unfinished

  /** The stack and the tokens not shifted yet, the end of the input (0) included. */
  datatype Machine = Machine(config: Config, rest: seq<nat>)

  function Height(m: Machine): nat {
    |m.config.forest|
  }

  /** The entry of the tables for token t in state s; a pending reduce stands for itself. */
  function ActionAt(tb: Tables, s: nat, t: nat): nat
    requires Shaped(tb) && t < NTOKEN
  {
    if s > MAX_SHIFT then s else ShiftAction(tb, s, t)
  }

  predicate Shifting(a: nat) {
    a <= MAX_SHIFT || MIN_SHIFTREDUCE <= a <= MAX_SHIFTREDUCE
  }

  predicate HasGoto(tb: Tables, p: nat, x: nat) {
    && p <= REDUCE_COUNT && p < |tb.reduceOfst|
    && 0 <= tb.reduceOfst[p] + x < |tb.action| && tb.reduceOfst[p] + x < |tb.lookahead|
    && tb.lookahead[tb.reduceOfst[p] + x] == x
  }

  function Goto(tb: Tables, p: nat, x: nat): nat
    requires HasGoto(tb, p, x)
  {
    tb.action[tb.reduceOfst[p] + x]
  }

  /** Action a reduces a rule whose right-hand side the stack is high enough for, with a goto below it. */
  predicate Reducing(tb: Tables, g: Grammar, c: Config, a: nat) {
    && MIN_REDUCE <= a <= MAX_REDUCE && |g.rhs| == |tb.lhs| == NRULE
    && |g.rhs[a - MIN_REDUCE]| <= |c.forest| < |c.states|
    && HasGoto(tb, c.states[|c.states| - 1 - |g.rhs[a - MIN_REDUCE]|], tb.lhs[a - MIN_REDUCE])
  }

  /** What is on the stack after reducing rule r. */
  function Reduced(tb: Tables, g: Grammar, c: Config, r: nat): Config
    requires Reducing(tb, g, c, MIN_REDUCE + r)
  {
    Reduce(c, r, |g.rhs[r]|, Goto(tb, c.states[|c.states| - 1 - |g.rhs[r]|], tb.lhs[r]))
  }

  /** One shift or one reduction, if that is what the tables say. */
  function Move(tb: Tables, g: Grammar, m: Machine): Option<Machine>
    requires Shaped(tb)
  {
    if m.rest == [] || m.rest[0] >= NTOKEN || m.config.states == [] then None
    else
      var c, t := m.config, m.rest[0];
      var a := ActionAt(tb, Top(c), t);
      if Reducing(tb, g, c, a) then Some(Machine(Reduced(tb, g, c, a - MIN_REDUCE), m.rest))
      else if Shifting(a) && Reading(tb, Top(c), t).Some?
        then Some(Machine(Shift(c, t, Reading(tb, Top(c), t).value, ShiftTarget(a)), m.rest[1..]))
      else None
  }

  /** The machine after n moves. */
  function Moved(tb: Tables, g: Grammar, m: Machine, n: nat): Option<Machine>
    requires Shaped(tb)
    decreases n
  {
    if n == 0 then Some(m)
    else
      match Move(tb, g, m)
      case None => None
      case Some(m') => Moved(tb, g, m', n - 1)
  }

  function Max(a: nat, b: nat): nat {
    if a < b then b else a
  }

  /** The greatest height of the stack in n moves. */
  function Peak(tb: Tables, g: Grammar, m: Machine, n: nat): nat
    requires Shaped(tb)
    decreases n
  {
    if n == 0 then Height(m)
    else
      match Move(tb, g, m)
      case None => Height(m)
      case Some(m') => Max(Height(m), Peak(tb, g, m', n - 1))
  }

  lemma {:induction false} Compose(tb: Tables, g: Grammar, m: Machine, a: nat, b: nat)
    requires Shaped(tb) && Moved(tb, g, m, a).Some?
    ensures Moved(tb, g, m, a + b) == Moved(tb, g, Moved(tb, g, m, a).value, b)
    ensures Peak(tb, g, m, a + b) == Max(Peak(tb, g, m, a), Peak(tb, g, Moved(tb, g, m, a).value, b))
    decreases a
  {
    hide Move;
    if a > 0 {
      Compose(tb, g, Move(tb, g, m).value, a - 1, b);
    } else {
      AtLeastNow(tb, g, m, b);
    }
  }

  lemma AtLeastNow(tb: Tables, g: Grammar, m: Machine, n: nat)
    requires Shaped(tb)
    ensures Peak(tb, g, m, n) >= Height(m)
  {
    hide Move;
  }

  /** From machine m, n moves lead to m', with the stack at most peak high on the way. */
  ghost predicate Leads(tb: Tables, g: Grammar, m: Machine, n: nat, peak: nat, m': Machine)
    requires Shaped(tb)
  {
    Moved(tb, g, m, n) == Some(m') && Peak(tb, g, m, n) == peak
  }

  lemma LeadsOn(tb: Tables, g: Grammar, m: Machine, a: nat, p: nat, m1: Machine, b: nat, q: nat, m2: Machine)
    requires Shaped(tb) && Leads(tb, g, m, a, p, m1) && Leads(tb, g, m1, b, q, m2)
    ensures Leads(tb, g, m, a + b, Max(p, q), m2)
  {
    Compose(tb, g, m, a, b);
  }

  lemma OneMove(tb: Tables, g: Grammar, m: Machine, m': Machine)
    requires Shaped(tb) && Move(tb, g, m) == Some(m')
    ensures Leads(tb, g, m, 1, Max(Height(m), Height(m')), m')
  {
    hide Move;
    assert Moved(tb, g, m', 0) == Some(m') && Peak(tb, g, m', 0) == Height(m');
  }

  /** And never needs more places than there are. */
  ghost predicate Within(tb: Tables, g: Grammar, m: Machine, n: nat, m': Machine)
    requires Shaped(tb)
  {
    Moved(tb, g, m, n) == Some(m') && Peak(tb, g, m, n) < YYSTACKDEPTH
  }

  lemma WithinOn(tb: Tables, g: Grammar, m: Machine, a: nat, m1: Machine, b: nat, m2: Machine)
    requires Shaped(tb) && Within(tb, g, m, a, m1) && Within(tb, g, m1, b, m2)
    ensures Within(tb, g, m, a + b, m2)
  {
    Compose(tb, g, m, a, b);
  }

  /** A move looks at the first token only. */
  lemma MoveLocal(tb: Tables, g: Grammar, c: Config, rest: seq<nat>)
    requires Shaped(tb) && rest != []
    ensures Move(tb, g, Machine(c, rest)).Some? <==> Move(tb, g, Machine(c, [rest[0]])).Some?
    ensures Move(tb, g, Machine(c, rest)).Some? ==>
      var m', one := Move(tb, g, Machine(c, rest)).value, Move(tb, g, Machine(c, [rest[0]])).value;
      && m'.config == one.config
      && (one.rest == [] ==> m'.rest == rest[1..]) && (one.rest != [] ==> one.rest == [rest[0]] && m'.rest == rest)
  {
    hide Shaped, ShiftAction, Reading, HasGoto;
    assert [rest[0]][1..] == [];
  }

  /** Where there is a move, the entry of the tables is neither accept nor error. */
  lemma MovesMean(tb: Tables, g: Grammar, m: Machine)
    requires Shaped(tb) && Move(tb, g, m).Some?
    ensures m.rest != [] && m.rest[0] < NTOKEN && m.config.states != []
    ensures ActionAt(tb, Top(m.config), m.rest[0]) != ACCEPT_ACTION
    ensures ActionAt(tb, Top(m.config), m.rest[0]) != ERROR_ACTION
  {
    hide Shaped, ShiftAction, Reading, HasGoto;
  }

  /** One turn of the main loop of sqlite3Parser with token t on stack c, in terms of the tables: what it
      does for each way to end, with c' for the stack afterwards. */
  ghost predicate Turned(tb: Tables, g: Grammar, c: Config, t: nat, out: Outcome, c': Config)
    requires Shaped(tb) && t < NTOKEN && c.states != []
  {
    var next := Move(tb, g, Machine(c, [t]));
    match out
    case Shifted => next == Some(Machine(c', [])) && |c'.forest| < YYSTACKDEPTH
    case Unfinished => next == Some(Machine(c', [t])) && |c'.forest| < YYSTACKDEPTH
    case Overflowed => next.Some? && Height(next.value) == YYSTACKDEPTH && c' == Config([0], [])
    case Accepted => ActionAt(tb, Top(c), t) == ACCEPT_ACTION && c' == Config([0], [])
    case Rejected => Top(c) <= MAX_SHIFT && ShiftAction(tb, Top(c), t) == ERROR_ACTION && c' == c
  }

  /** A reduction is a turn, unless it needs one place too many. */
  lemma ReductionTurns(tb: Tables, g: Grammar, c: Config, t: nat, r: nat)
    requires Shaped(tb) && t < NTOKEN && Reducing(tb, g, c, MIN_REDUCE + r) && |c.forest| < YYSTACKDEPTH
    requires ActionAt(tb, Top(c), t) == MIN_REDUCE + r
    ensures |c.forest| == YYSTACKDEPTH - 1 && |g.rhs[r]| == 0 ==> Turned(tb, g, c, t, Overflowed, Config([0], []))
    ensures |c.forest| < YYSTACKDEPTH - 1 || |g.rhs[r]| > 0 ==> Turned(tb, g, c, t, Unfinished, Reduced(tb, g, c, r))
  {
  }

  /** So is a shift. */
  lemma ShiftTurns(tb: Tables, g: Grammar, c: Config, t: nat)
    requires Shaped(tb) && t < NTOKEN && |c.states| == |c.forest| + 1 <= YYSTACKDEPTH && Top(c) <= MAX_SHIFT
    requires Shifting(ShiftAction(tb, Top(c), t)) && Reading(tb, Top(c), t).Some?
    ensures var c' := Shift(c, t, Reading(tb, Top(c), t).value, ShiftTarget(ShiftAction(tb, Top(c), t)));
      && (|c.forest| == YYSTACKDEPTH - 1 ==> Turned(tb, g, c, t, Overflowed, Config([0], [])))
      && (|c.forest| < YYSTACKDEPTH - 1 ==> Turned(tb, g, c, t, Shifted, c'))
  {
    assert [t][1..] == [];
  }

  lemma AcceptTurns(tb: Tables, g: Grammar, c: Config, t: nat)
    requires Shaped(tb) && t < NTOKEN && c.states != [] && ActionAt(tb, Top(c), t) == ACCEPT_ACTION
    ensures Turned(tb, g, c, t, Accepted, Config([0], []))
  {
  }

  lemma RejectTurns(tb: Tables, g: Grammar, c: Config, t: nat)
    requires Shaped(tb) && t < NTOKEN && c.states != [] && Top(c) <= MAX_SHIFT
    requires ShiftAction(tb, Top(c), t) == ERROR_ACTION
    ensures Turned(tb, g, c, t, Rejected, c)
  {
  }

  /** With room on the stack, an entry that shifts makes the turn end Shifted and nothing else. */
  lemma ShiftingShifts(tb: Tables, g: Grammar, c: Config, t: nat, out: Outcome, c': Config)
    requires Shaped(tb) && t < NTOKEN && |c.states| == |c.forest| + 1 < YYSTACKDEPTH && Top(c) <= MAX_SHIFT
    requires Turned(tb, g, c, t, out, c')
    ensures Shifting(ShiftAction(tb, Top(c), t)) <==> out.Shifted?
  {
    hide ShiftAction, Reading, Shaped, HasGoto;
    assert [t][1..] == [];
    if Shifting(ShiftAction(tb, Top(c), t)) {
      assert Move(tb, g, Machine(c, [t])).value.rest == [];
    }
  }

  /** Turns that end Shifted or Unfinished are moves. */
  lemma TurnMoves(tb: Tables, g: Grammar, c: Config, rest: seq<nat>, out: Outcome, c': Config)
    requires Shaped(tb) && rest != [] && rest[0] < NTOKEN && c.states != [] && |c.forest| < YYSTACKDEPTH
    requires Turned(tb, g, c, rest[0], out, c')
    ensures out.Unfinished? ==> Within(tb, g, Machine(c, rest), 1, Machine(c', rest))
    ensures out.Shifted? ==> Within(tb, g, Machine(c, rest), 1, Machine(c', rest[1..]))
  {
    MoveLocal(tb, g, c, rest);
    hide Shaped, Move;
    if out.Unfinished? {
      OneMove(tb, g, Machine(c, rest), Machine(c', rest));
    } else if out.Shifted? {
      OneMove(tb, g, Machine(c, rest), Machine(c', rest[1..]));
    }
  }
}
