/** The engine of the generated parser: a fixed stack driven by the tables. */
module ParserEngine {
  import opened ParserTables
  import opened ParserProof
  import opened ParserMachine
  import opened ParserComplete

  datatype Entry = Entry(stateno: nat, major: nat)

  function Major(tb: Tables, t: Tree): nat {
    match t
    case Leaf(token, _) => token
    case Node(r, _) => if r < |tb.lhs| then tb.lhs[r] else 0
  }

  class Parser {
    const tb: Tables
    const yystack: array<Entry>
    var yytos: nat
    ghost const g: Grammar
    ghost const known: Known
    ghost var config: Config

    /** sqlite3ParserInit */
    constructor (tb: Tables, ghost g: Grammar, ghost known: Known)
      requires Fits(tb, g, known)
      ensures Valid() && this.tb == tb && this.g == g && this.known == known && Leaves() == []
      ensures fresh(yystack) && config == Config([0], [])
    {
      this.tb, this.g, this.known := tb, g, known;
      yystack := new Entry[YYSTACKDEPTH](_ => Entry(0, 0));
      yytos := 0;
      config := Config([0], []);
      new;
      assert EntryOk(g, known, config, 0);
    }

    /** The stack pointer stays inside the stack, the stack holds what config says, and every entry is
        as its state promises. */
    ghost predicate Valid()
      reads this, yystack
    {
      Fits(tb, g, known) && ConfigOk(tb, g, known, config) && Mirrors()
    }

    ghost predicate Mirrors()
      reads this, yystack
    {
      && yystack.Length == YYSTACKDEPTH && yytos < YYSTACKDEPTH
      && |config.states| == |config.forest| + 1 == yytos + 1
      && (forall k {:trigger yystack[k]} :: 0 <= k <= yytos ==> yystack[k].stateno == config.states[k])
      && (forall k {:trigger yystack[k]} :: 0 < k <= yytos ==> yystack[k].major == Major(tb, config.forest[k - 1]))
    }

    /** The tokens the stack stands for. */
    ghost function Leaves(): seq<nat>
      reads this
    {
      YieldAll(config.forest)
    }

    lemma TopState()
      requires Valid()
      ensures yystack[yytos].stateno == Top(config) && Top(config) <= MAX_REDUCE && Legal(Top(config))
      ensures yytos > 0 ==> Top(config) != 0
    {
      hide ConfigOk, Fits;
      EntryAt(tb, g, known, config, |config.forest|) by { Sizes(); }
      Sizes();
    }

    lemma Sizes()
      requires Valid()
      ensures |config.states| == |config.forest| + 1 == yytos + 1 && |known| == MAX_REDUCE + 1
      ensures yystack.Length == YYSTACKDEPTH && yytos < YYSTACKDEPTH
    {
    }

    lemma StateAt(k: nat)
      requires Mirrors() && k <= yytos
      ensures yystack[k].stateno == config.states[k]
    {
    }

    /** yyStackOverflow: pops everything. */
    method StackOverflow()
      requires Valid()
      modifies this`yytos, this`config
      ensures Valid() && yytos == 0 && config == Config([0], [])
    {
      Sizes();
      while yytos > 0
        modifies this`yytos
        invariant yytos <= old(yytos)
      {
        yytos := yytos - 1;
      }
      PopKeeps(tb, g, known, config, |config.forest|);
      config := Config(config.states[..|config.states| - |config.forest|], config.forest[..0]);
      assert config.states == [0];
    }

    /** Makes e the top entry, at place pos. */
    method PutTop(pos: nat, e: Entry, ghost c': Config)
      requires Mirrors() && 0 < pos <= yytos + 1 && pos < YYSTACKDEPTH
      requires c'.states == config.states[..pos] + [e.stateno]
      requires |c'.forest| == pos && c'.forest[..pos - 1] == config.forest[..pos - 1]
      requires Major(tb, c'.forest[pos - 1]) == e.major
      modifies this`yytos, this`config, yystack
      ensures Mirrors() && config == c' && yytos == pos
    {
      forall k | 0 <= k < pos - 1
        ensures c'.forest[k] == config.forest[k]
      {
        assert c'.forest[..pos - 1][k] == config.forest[..pos - 1][k];
      }
      yytos := pos;
      yystack[pos] := e;
      config := c';
    }

    /** yy_find_reduce_action, with what it asserts. */
    method FindReduceAction(stateno: nat, iLookAhead: nat) returns (a: nat)
      requires HasGoto(tb, stateno, iLookAhead)
      ensures a == Goto(tb, stateno, iLookAhead)
    {
      var i := tb.reduceOfst[stateno] + iLookAhead;
      a := tb.action[i];
    }

    /** yy_shift: pushes the token, or overflows. */
    method YyShift(yyNewState: nat, yyMajor: nat)
      requires Valid() && yyMajor < NTOKEN && Top(config) <= MAX_SHIFT && Reading(tb, Top(config), yyMajor).Some?
      requires PushOk(g, known, Top(config), Reading(tb, Top(config), yyMajor).value, ShiftTarget(yyNewState))
      requires Shaped(tb) && yyNewState == ShiftAction(tb, Top(config), yyMajor) && Shifting(yyNewState)
      modifies this`yytos, this`config, yystack
      ensures Valid() && old(config).states != []
      ensures Turned(tb, g, old(config), yyMajor, if yytos > 0 then Shifted else Overflowed, config)
      ensures yytos == 0 ==> config.forest == []
      ensures yytos > 0 ==> Leaves() == old(Leaves()) + [yyMajor]
    {
      hide Fits, ConfigOk, PushOk, Reading, Mirrors, Turned, Shaped, ShiftAction;
      Sizes();
      ShiftTurns(tb, g, config, yyMajor);
      ghost var target := ShiftTarget(yyNewState);
      ghost var r := Reading(tb, Top(config), yyMajor).value;
      ghost var c' := Shift(config, yyMajor, r, target);
      ShiftKeeps(tb, g, known, config, yyMajor, target);
      if yytos + 1 > YYSTACKDEPTH - 1 {
        StackOverflow();
        return;
      }
      var newState := yyNewState;
      if newState > MAX_SHIFT {
        newState := newState + (MIN_REDUCE - MIN_SHIFTREDUCE);
      }
      PutTop(yytos + 1, Entry(newState, yyMajor), c');
    }

    /** Rule r can be reduced, and what is on the stack then. */
    lemma CanReduce(r: nat)
      requires Valid() && r < NRULE && Top(config) <= MAX_REDUCE && ReduceOk(tb, g, known, Top(config), r)
      ensures Shaped(tb) && |tb.nrhs| == |tb.lhs| == NRULE && tb.nrhs[r] == -|g.rhs[r]|
      ensures Reducing(tb, g, config, MIN_REDUCE + r)
      ensures var c' := Reduced(tb, g, config, r); ConfigOk(tb, g, known, c') && YieldAll(c'.forest) == Leaves()
    {
      hide ConfigOk, PushOk, ReduceOk;
      ReduceKeeps(tb, g, known, config, r);
      FitsFacts(tb, g, known, r);
      Sizes();
    }

    lemma AfterReduce(r: nat)
      requires Mirrors() && Reducing(tb, g, config, MIN_REDUCE + r)
      ensures var n := |g.rhs[r]|; var c' := Reduced(tb, g, config, r); var p := config.states[yytos - n];
        && n <= yytos && HasGoto(tb, p, tb.lhs[r]) && yystack[yytos - n].stateno == p
        && c'.states == config.states[..yytos - n + 1] + [Goto(tb, p, tb.lhs[r])]
        && |c'.forest| == yytos - n + 1 && c'.forest[..yytos - n] == config.forest[..yytos - n]
        && Major(tb, c'.forest[yytos - n]) == tb.lhs[r] && Top(c') == Goto(tb, p, tb.lhs[r])
    {
      hide HasGoto;
    }

    /** yy_reduce without the rule's own code: the right-hand side gives way to the left-hand side. */
    method YyReduce(r: nat, ghost yyLookahead: nat) returns (yyact: nat)
      requires Valid() && r < NRULE && Top(config) <= MAX_REDUCE && ReduceOk(tb, g, known, Top(config), r)
      requires Shaped(tb) && yyLookahead < NTOKEN && ActionAt(tb, Top(config), yyLookahead) == MIN_REDUCE + r
      modifies this`yytos, this`config, yystack
      ensures Valid() && old(config).states != []
      ensures Turned(tb, g, old(config), yyLookahead, if yytos > 0 then Unfinished else Overflowed, config)
      ensures yytos == 0 ==> config.forest == []
      ensures yytos > 0 ==> Leaves() == old(Leaves()) && yyact == Top(config)
    {
      hide Fits, ConfigOk, PushOk, ReduceOk, Shaped, Mirrors, Reducing, Reduced, Major, Turned, ActionAt, Top;
      hide HasGoto, Goto;
      Sizes();
      CanReduce(r);
      ReductionTurns(tb, g, config, yyLookahead, r);
      AfterReduce(r);
      ghost var c' := Reduced(tb, g, config, r);
      if tb.nrhs[r] == 0 {
        if yytos >= YYSTACKDEPTH - 1 {
          StackOverflow();
          return 0;
        }
      }
      var yygoto := tb.lhs[r];
      var yysize := tb.nrhs[r];
      yyact := FindReduceAction(yystack[yytos + yysize].stateno, yygoto);
      PutTop(yytos + yysize + 1, Entry(yyact, yygoto), c');
    }

    /** yy_accept, once the accepting entry is popped. */
    method Accept()
      requires Valid() && Top(config) == ACCEPT_ACTION
      modifies this`yytos, this`config
      ensures Valid() && yytos == 0 && config == Config([0], [])
      ensures Derives(tb, g, old(Leaves()))
    {
      AcceptMeans(tb, g, known, config);
      PopKeeps(tb, g, known, config, 1);
      Sizes();
      yytos := yytos - 1;
      assert yytos == 0;
      config := Config(config.states[..|config.states| - 1], config.forest[..|config.forest| - 1]);
      assert config.states == [0];
    }

    /** What the action for token t may be. */
    lemma ActionCases(t: nat)
      requires Valid() && t < NTOKEN
      ensures Shaped(tb) && config.states != []
      ensures var s := Top(config); var a := ActionAt(tb, s, t);
        && (a >= MIN_REDUCE ==> s <= MAX_REDUCE && a <= MAX_REDUCE && ReduceOk(tb, g, known, s, a - MIN_REDUCE))
        && (a <= MAX_SHIFTREDUCE ==>
             && s <= MAX_SHIFT && a == ShiftAction(tb, s, t) && Shifting(a) && Reading(tb, s, t).Some?
             && PushOk(g, known, s, Reading(tb, s, t).value, ShiftTarget(a)))
        && (MAX_SHIFTREDUCE < a < MIN_REDUCE ==>
             (a == s == ACCEPT_ACTION) || (a == ERROR_ACTION && s <= MAX_SHIFT && a == ShiftAction(tb, s, t)))
    {
      TopState();
      Sizes();
      hide ConfigOk, PushOk, ReduceOk, Mirrors, Reading, ShiftAction;
      assert Shaped(tb);
      if Top(config) <= MAX_SHIFT {
        ActionMeans(tb, g, known, Top(config), t);
      } else if Top(config) >= MIN_REDUCE {
        PendingOk(tb, g, known, config);
      }
    }

    /** One turn of the main loop with token yymajor in state yyact; Unfinished means another turn. */
    method Turn(yymajor: nat, yyact: nat) returns (out: Outcome, act: nat)
      requires Valid() && yymajor < NTOKEN && yyact == Top(config)
      modifies this`yytos, this`config, yystack
      ensures Valid() && Result(out, old(Leaves()), yymajor)
      ensures out.Unfinished? ==> act == Top(config) && yytos > 0
      ensures Shaped(tb) && old(config).states != [] && Turned(tb, g, old(config), yymajor, out, config)
    {
      ActionCases(yymajor);
      Sizes();
      ghost var c := config;
      hide Valid, PushOk, ReduceOk, Shaped, Reading, ShiftAction, Reducing, Reduced, Turned, Shift, Leaves, Derives;
      act := FindShiftAction(tb, yymajor, yyact);
      assert act == ActionAt(tb, Top(c), yymajor);
      if act >= MIN_REDUCE {
        act := YyReduce(act - MIN_REDUCE, yymajor);
        out := if yytos > 0 then Unfinished else Overflowed;
      } else if act <= MAX_SHIFTREDUCE {
        YyShift(act, yymajor);
        out := if yytos > 0 then Shifted else Overflowed;
      } else if act == ACCEPT_ACTION {
        AcceptTurns(tb, g, c, yymajor);
        Accept();
        out := Accepted;
      } else {
        assert act == ERROR_ACTION;
        RejectTurns(tb, g, c, yymajor);
        out := Rejected;
      }
    }

    /** What each way to end means for the tokens the stack stands for. */
    ghost predicate Result(out: Outcome, before: seq<nat>, token: nat)
      reads this
    {
      match out
      case Shifted => Leaves() == before + [token]
      case Accepted => Derives(tb, g, before) && config.forest == [] && yytos == 0
      case Rejected => Leaves() == before
      case Overflowed => config.forest == [] && yytos == 0
      case Unfinished => Leaves() == before
    }

    /** sqlite3Parser, stopped after the given number of turns. The parser has come from machine m0 in moves
        moves and has rest before it; it goes on to stack c inside its own stack, and its last turn is on c. */
    method Feed(yymajor: nat, turns: nat, ghost m0: Machine, ghost moves: nat, ghost rest: seq<nat>)
      returns (out: Outcome, ghost k: nat, ghost c: Config)
      requires Valid() && yymajor < NTOKEN && rest != [] && rest[0] == yymajor
      requires Shaped(tb) && Within(tb, g, m0, moves, Machine(config, rest))
      modifies this`yytos, this`config, yystack
      ensures Valid() && Result(out, old(Leaves()), yymajor)
      ensures c.states != [] && Within(tb, g, m0, k, Machine(c, rest))
      ensures if out.Unfinished? then k == moves + turns else Turned(tb, g, c, yymajor, out, config)
      ensures out.Shifted? ==> Within(tb, g, m0, k + 1, Machine(config, rest[1..]))
    {
      TopState();
      Sizes();
      hide Fits, ConfigOk, Mirrors, Derives, Turned, Shaped, Move, Within;
      var yyact := yystack[yytos].stateno;
      out, k, c := Unfinished, moves, config;
      for n := 0 to turns
        invariant Valid() && out == Unfinished && Leaves() == old(Leaves()) && yyact == Top(config)
        invariant k == moves + n && c == config && c.states != [] && |c.forest| < YYSTACKDEPTH
        invariant Within(tb, g, m0, k, Machine(c, rest))
      {
        out, yyact := Turn(yymajor, yyact);
        TurnLeads(tb, g, m0, k, c, rest, out, config);
        Sizes();
        if out != Unfinished {
          return;
        }
        k, c := k + 1, config;
      }
    }
  }

  lemma TurnLeads(tb: Tables, g: Grammar, m0: Machine, k: nat, c: Config, rest: seq<nat>, out: Outcome, c': Config)
    requires Shaped(tb) && rest != [] && rest[0] < NTOKEN && c.states != [] && |c.forest| < YYSTACKDEPTH
    requires Within(tb, g, m0, k, Machine(c, rest)) && Turned(tb, g, c, rest[0], out, c')
    ensures out.Unfinished? ==> Within(tb, g, m0, k + 1, Machine(c', rest))
    ensures out.Shifted? ==> Within(tb, g, m0, k + 1, Machine(c', rest[1..]))
  {
    hide *;
    TurnMoves(tb, g, c, rest, out, c');
    if out.Unfinished? {
      WithinOn(tb, g, m0, k, Machine(c, rest), 1, Machine(c', rest));
    } else if out.Shifted? {
      WithinOn(tb, g, m0, k, Machine(c, rest), 1, Machine(c', rest[1..]));
    }
  }

  /** The parser as sqlite3RunParser drives it: token after token and then the end of the input, up to
      the first call that does not shift. When it accepts, the tokens shifted derive the start symbol;
      and when the tables cover a finer grammar by which the tokens are meant as something, it does accept
      all of them, if the turns and the places of the stack are enough. */
  method Parse(tb: Tables, ghost g: Grammar, ghost known: Known, tokens: seq<nat>, turns: nat)
    returns (out: Outcome, n: nat)
    requires Fits(tb, g, known) && forall i :: 0 <= i < |tokens| ==> tokens[i] < NTOKEN
    ensures n <= |tokens| && (out.Accepted? ==> Derives(tb, g, tokens[..n]))
    ensures out.Shifted? ==> n == |tokens|
    ensures forall fg, items, t :: Covers(tb, g, fg, items) && Meant(fg, t, tokens) && turns > Size(t) ==>
      if Depth(t) < YYSTACKDEPTH then out == Accepted && n == |tokens| else out == Overflowed
  {
    hide Fits, Shaped, Parser.Valid, Within, Derives, Covers, Meant, Size, Depth, Turned, Symbol, Yield, YieldAll;
    AtStart(tb, g, known, tokens);
    var parser := new Parser(tb, g, known);
    ghost var moves, rest, k, c := 0, tokens + [0], 0, parser.config;
    n := 0;
    while n < |tokens|
      invariant parser.Valid() && parser.tb == tb && parser.g == g && n <= |tokens|
      invariant parser.Leaves() == tokens[..n] && fresh(parser) && fresh(parser.yystack)
      invariant rest == tokens[n..] + [0] && Within(tb, g, Started(tokens), moves, Machine(parser.config, rest))
    {
      out, k, c := parser.Feed(tokens[n], turns, Started(tokens), moves, rest);
      if out != Shifted {
        Stops(tb, g, tokens, turns, k, Machine(c, rest), out, n, parser.config);
        return;
      }
      assert tokens[..n + 1] == tokens[..n] + [tokens[n]];
      moves, rest := k + 1, rest[1..];
      n := n + 1;
    }
    assert tokens[..n] == tokens;
    out, k, c := parser.Feed(0, turns, Started(tokens), moves, rest);
    Stops(tb, g, tokens, turns, k, Machine(c, rest), out, n, parser.config);
  }

  lemma AtStart(tb: Tables, g: Grammar, known: Known, tokens: seq<nat>)
    requires Fits(tb, g, known)
    ensures Shaped(tb) && Within(tb, g, Started(tokens), 0, Started(tokens))
  {
  }

  lemma Stops(tb: Tables, g: Grammar, tokens: seq<nat>, turns: nat, m: nat, m1: Machine, out: Outcome, n: nat,
      c': Config)
    requires Shaped(tb) && Within(tb, g, Started(tokens), m, m1) && m1.rest != [] && m1.rest[0] < NTOKEN
    requires m1.config.states != [] && (out.Shifted? ==> |m1.rest| == 1)
    requires if out.Unfinished? then m >= turns else Turned(tb, g, m1.config, m1.rest[0], out, c')
    requires n <= |tokens| == n + |m1.rest| - 1
    ensures forall fg, items, t :: Covers(tb, g, fg, items) && Meant(fg, t, tokens) && turns > Size(t) ==>
      if Depth(t) < YYSTACKDEPTH then out == Accepted && n == |tokens| else out == Overflowed
  {
    assert Stopped(tb, g, Started(tokens), turns, m, m1, out);
    hide *;
    forall fg, items, t | Covers(tb, g, fg, items) && Meant(fg, t, tokens) && turns > Size(t)
      ensures if Depth(t) < YYSTACKDEPTH then out == Accepted && n == |tokens| else out == Overflowed
    {
      StopsRight(tb, g, fg, items, t, tokens, turns, m, m1, out);
    }
  }
}
