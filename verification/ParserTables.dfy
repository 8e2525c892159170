/** The action tables of the generated parser, abstractly: how an action is looked up, and what makes
    tables and a grammar fit together. */
module ParserTables {
  import opened Wrappers

  const NTOKEN := 155
  const NRULE := 369
  const WILDCARD := 91
  const MAX_SHIFT := 527
  const MIN_SHIFTREDUCE := 764
  const MAX_SHIFTREDUCE := 1132
  const ERROR_ACTION := 1133
  const ACCEPT_ACTION := 1134
  const MIN_REDUCE := 1136
  const MAX_REDUCE := 1504
  const REDUCE_COUNT := 376

  /** yy_action, yy_lookahead, yy_shift_ofst, yy_reduce_ofst, yy_default, yyFallback, yyRuleInfoLhs and
      yyRuleInfoNRhs (which holds the negated length). */
  datatype Tables = Tables(
    action: seq<nat>, lookahead: seq<nat>, shiftOfst: seq<nat>, reduceOfst: seq<int>, defaults: seq<nat>,
    fallback: seq<nat>, lhs: seq<nat>, nrhs: seq<int>)

  /** What lemon guarantees of the sizes, so that no lookup leaves a table; and no fallback token has
      a fallback of its own, nor has the end of the input one. */
  ghost predicate Shaped(tb: Tables) {
    && |tb.shiftOfst| == |tb.defaults| == MAX_SHIFT + 1 && |tb.reduceOfst| == REDUCE_COUNT + 1
    && |tb.lhs| == |tb.nrhs| == NRULE && |tb.fallback| <= NTOKEN
    && |tb.action| <= |tb.lookahead|
    && (forall i :: |tb.action| <= i < |tb.lookahead| ==> tb.lookahead[i] >= NTOKEN)
    && (forall s :: 0 <= s <= MAX_SHIFT ==> tb.shiftOfst[s] + WILDCARD < |tb.action|)
    && (forall t {:trigger tb.fallback[t]} :: 0 <= t < |tb.fallback| && tb.fallback[t] != 0 ==>
         tb.fallback[t] < |tb.fallback| && tb.fallback[tb.fallback[t]] == 0)
    && Fallback(tb, 0) == 0
  }

  /** The explicit entry of a state for column t. */
  predicate HasColumn(tb: Tables, s: nat, t: nat) {
    s < |tb.shiftOfst| && tb.shiftOfst[s] + t < |tb.lookahead| && tb.lookahead[tb.shiftOfst[s] + t] == t
  }

  function Column(tb: Tables, s: nat, t: nat): nat
    requires Shaped(tb) && HasColumn(tb, s, t) && t < NTOKEN
  {
    tb.action[tb.shiftOfst[s] + t]
  }

  function Fallback(tb: Tables, t: nat): nat {
    if t < |tb.fallback| then tb.fallback[t] else 0
  }

  /** How a token is read in a state, if any explicit entry takes it: as itself, else as its fallback,
      else as the wildcard. */
  function Reading(tb: Tables, s: nat, t: nat): (r: Option<nat>) {
    if HasColumn(tb, s, t) then Some(t)
    else if Fallback(tb, t) != 0 && HasColumn(tb, s, Fallback(tb, t)) then Some(Fallback(tb, t))
    else if HasColumn(tb, s, WILDCARD) && t > 0 then Some(WILDCARD)
    else None
  }

  /** A token may be read as itself, its fallback or the wildcard. */
  predicate Readable(tb: Tables, token: nat, r: nat) {
    token < NTOKEN && (r == token || (r != 0 && r == Fallback(tb, token)) || (r == WILDCARD && token > 0))
  }

  /** A token is read in some way whenever a way to read it has an entry, and each way goes before the next. */
  lemma ReadingChosen(tb: Tables, s: nat, t: nat)
    requires t < NTOKEN
    ensures Reading(tb, s, t).None? <==> forall r :: Readable(tb, t, r) ==> !HasColumn(tb, s, r)
    ensures Reading(tb, s, t).Some? ==>
      var r := Reading(tb, s, t).value;
      && Readable(tb, t, r) && HasColumn(tb, s, r)
      && (r != t ==> !HasColumn(tb, s, t))
      && (r != t && r != Fallback(tb, t) && Fallback(tb, t) != 0 ==> !HasColumn(tb, s, Fallback(tb, t)))
  {
    if Reading(tb, s, t).None? {
      assert forall r :: Readable(tb, t, r) ==> r == t || r == Fallback(tb, t) || r == WILDCARD;
    }
  }

  function ShiftAction(tb: Tables, s: nat, t: nat): nat
    requires Shaped(tb) && s <= MAX_SHIFT && t < NTOKEN
  {
    match Reading(tb, s, t)
    case Some(r) => Column(tb, s, r)
    case None => tb.defaults[s]
  }

  /** yy_find_shift_action: the loop over the fallback ends after at most one turn. */
  method FindShiftAction(tb: Tables, iLookAhead: nat, stateno: nat) returns (a: nat)
    requires Shaped(tb) && iLookAhead < NTOKEN
    ensures a == if stateno > MAX_SHIFT then stateno else ShiftAction(tb, stateno, iLookAhead)
  {
    if stateno > MAX_SHIFT {
      return stateno;
    }
    var t := iLookAhead;
    while true
      invariant t == iLookAhead
        || (t == Fallback(tb, iLookAhead) && t != 0 && !HasColumn(tb, stateno, iLookAhead) && Fallback(tb, t) == 0)
      invariant t < NTOKEN
      decreases if Fallback(tb, t) != 0 then 1 else 0
    {
      var i := tb.shiftOfst[stateno];
      i := i + t;
      if i >= |tb.lookahead| || tb.lookahead[i] != t {
        if t < |tb.fallback| && tb.fallback[t] != 0 {
          var iFallback := tb.fallback[t];
          assert tb.fallback[iFallback] == 0;
          t := iFallback;
          continue;
        }
        var j := i - t + WILDCARD;
        if j < |tb.lookahead| && tb.lookahead[j] == WILDCARD && t > 0 {
          return tb.action[j];
        }
        return tb.defaults[stateno];
      } else {
        return tb.action[i];
      }
    }
  }

  // ---------------------------------------------------------------- grammars and parse trees

  /** rhs: for each rule the symbols its right-hand side allows at each place (a token class allows
      several). */
  datatype Grammar = Grammar(start: nat, lhs: seq<nat>, rhs: seq<seq<set<nat>>>)

  /** A leaf is a token together with what it is read as; a node is a rule with what its right-hand
      side stands for. */
  datatype Tree = Leaf(token: nat, reading: nat) | Node(rule: nat, kids: seq<Tree>)

  function Symbol(g: Grammar, t: Tree): nat {
    match t
    case Leaf(_, r) => r
    case Node(r, _) => if r < |g.lhs| then g.lhs[r] else 0
  }

  /** The tokens under a tree, from left to right. */
  function Yield(t: Tree): seq<nat> {
    match t
    case Leaf(token, _) => [token]
    case Node(_, kids) => YieldAll(kids)
  }

  function YieldAll(ts: seq<Tree>): seq<nat> {
    if ts == [] then [] else YieldAll(ts[..|ts| - 1]) + Yield(ts[|ts| - 1])
  }

  /** A derivation: each node follows its rule, and each token is read as it may be. */
  ghost predicate Derivation(tb: Tables, g: Grammar, t: Tree) {
    match t
    case Leaf(token, r) => Readable(tb, token, r)
    case Node(rule, kids) =>
      && rule < |g.lhs| == |g.rhs| && |kids| == |g.rhs[rule]|
      && (forall i {:trigger kids[i]} :: 0 <= i < |kids| ==> Derivation(tb, g, kids[i]))
      && (forall i {:trigger kids[i]} :: 0 <= i < |kids| ==> Symbol(g, kids[i]) in g.rhs[rule][i])
  }

  /** The tokens derive the start symbol. */
  ghost predicate Derives(tb: Tables, g: Grammar, tokens: seq<nat>) {
    exists t :: Derivation(tb, g, t) && Symbol(g, t) == g.start && Yield(t) == tokens
  }

  lemma {:induction false} YieldJoin(a: seq<Tree>, b: seq<Tree>)
    ensures YieldAll(a + b) == YieldAll(a) + YieldAll(b)
  {
    if b == [] {
      assert a + b == a;
    } else {
      var n := |b| - 1;
      YieldJoin(a, b[..n]);
      assert (a + b)[..|a + b| - 1] == a + b[..n];
    }
  }

  // ---------------------------------------------------------------- tables that fit a grammar

  /** What is known about one place of the stack: the symbols it may hold and the states below it. */
  datatype Slot = Slot(symbols: set<nat>, below: set<nat>)

  /** What is known about the top of the stack in each state. */
  type Known = seq<seq<Slot>>

  ghost predicate Legal(s: nat) {
    s <= MAX_SHIFT || s == ACCEPT_ACTION || MIN_REDUCE <= s <= MAX_REDUCE
  }

  /** Pushing symbol x in state s leads to target, whose knowledge follows from that of s. */
  ghost predicate PushOk(g: Grammar, known: Known, s: nat, x: nat, target: nat)
    requires |known| == MAX_REDUCE + 1 && |g.rhs| == NRULE && s <= MAX_REDUCE
  {
    && Legal(target) && target != 0
    && (target >= MIN_REDUCE ==> |g.rhs[target - MIN_REDUCE]| > 0)
    && var k, k' := known[s], known[target];
       |k'| <= |k| + 1
       && (forall j {:trigger k'[j]} :: 0 <= j < |k'| - 1 ==>
            k[|k| - |k'| + 1 + j].symbols <= k'[j].symbols && k[|k| - |k'| + 1 + j].below <= k'[j].below)
       && (|k'| > 0 ==> x in k'[|k'| - 1].symbols && s in k'[|k'| - 1].below)
  }

  ghost predicate GotoOk(tb: Tables, g: Grammar, known: Known, p: nat, x: nat)
    requires Shaped(tb) && |known| == MAX_REDUCE + 1 && |g.rhs| == NRULE
  {
    && p <= REDUCE_COUNT && 0 <= tb.reduceOfst[p] + x < |tb.action| && tb.lookahead[tb.reduceOfst[p] + x] == x
    && var a := tb.action[tb.reduceOfst[p] + x];
       (a == ACCEPT_ACTION ==> p == 0 && x == g.start) && PushOk(g, known, p, x, a)
  }

  /** Rule r may be reduced in state s: the top of the stack is its right-hand side, and every state
      this may uncover has a goto on the left-hand side. */
  ghost predicate ReduceOk(tb: Tables, g: Grammar, known: Known, s: nat, r: nat)
    requires Shaped(tb) && |known| == MAX_REDUCE + 1 && |g.rhs| == NRULE && s <= MAX_REDUCE && r < NRULE
  {
    var k := known[s];
    var n := |g.rhs[r]|;
    && n <= |k|
    && (forall j {:trigger g.rhs[r][j]} :: 0 <= j < n ==> k[|k| - n + j].symbols <= g.rhs[r][j])
    && forall p :: p in (if n == 0 then {s} else k[|k| - n].below) ==> GotoOk(tb, g, known, p, tb.lhs[r])
  }

  /** The state a shift leads to: a shift-reduce action becomes a pending reduce. */
  function ShiftTarget(a: nat): nat {
    if a > MAX_SHIFT then a + (MIN_REDUCE - MIN_SHIFTREDUCE) else a
  }

  ghost predicate ColumnOk(tb: Tables, g: Grammar, known: Known, s: nat, t: nat)
    requires Shaped(tb) && |known| == MAX_REDUCE + 1 && |g.rhs| == NRULE
    requires s <= MAX_SHIFT && t < NTOKEN && HasColumn(tb, s, t)
  {
    var a := Column(tb, s, t);
    if a <= MAX_SHIFT || MIN_SHIFTREDUCE <= a <= MAX_SHIFTREDUCE then PushOk(g, known, s, t, ShiftTarget(a))
    else a == ERROR_ACTION || (MIN_REDUCE <= a <= MAX_REDUCE && ReduceOk(tb, g, known, s, a - MIN_REDUCE))
  }

  ghost predicate DefaultOk(tb: Tables, g: Grammar, known: Known, s: nat)
    requires Shaped(tb) && |known| == MAX_REDUCE + 1 && |g.rhs| == NRULE && s <= MAX_SHIFT
  {
    var a := tb.defaults[s];
    a == ERROR_ACTION || (MIN_REDUCE <= a <= MAX_REDUCE && ReduceOk(tb, g, known, s, a - MIN_REDUCE))
  }

  /** The tables parse the grammar, as far as what they reduce is what the rules say. */
  ghost predicate Fits(tb: Tables, g: Grammar, known: Known) {
    && Shaped(tb) && |known| == MAX_REDUCE + 1 && |g.rhs| == |g.lhs| == NRULE
    && g.lhs == tb.lhs && (forall r :: 0 <= r < NRULE ==> tb.nrhs[r] == -|g.rhs[r]|)
    && known[0] == [] && known[ACCEPT_ACTION] == [Slot({g.start}, {0})]
    && (forall s, t {:trigger HasColumn(tb, s, t)} :: 0 <= s <= MAX_SHIFT && 0 <= t < NTOKEN && HasColumn(tb, s, t) ==>
         ColumnOk(tb, g, known, s, t))
    && (forall s :: 0 <= s <= MAX_SHIFT ==> DefaultOk(tb, g, known, s))
    && (forall r :: 0 <= r < NRULE && |g.rhs[r]| > 0 ==> ReduceOk(tb, g, known, MIN_REDUCE + r, r))
  }

  // ---------------------------------------------------------------- configurations

  /** The stack: the states from the bottom up, and the parse trees of the entries above the bottom. */
  datatype Config = Config(states: seq<nat>, forest: seq<Tree>)

  ghost predicate Planted(tb: Tables, g: Grammar, forest: seq<Tree>) {
    forall i {:trigger forest[i]} :: 0 <= i < |forest| ==> Derivation(tb, g, forest[i])
  }

  /** Entry k of the stack is as its state promises. */
  ghost predicate EntryOk(g: Grammar, known: Known, c: Config, k: nat)
    requires |known| == MAX_REDUCE + 1 && |c.states| == |c.forest| + 1 && k < |c.states|
  {
    && Legal(c.states[k]) && (k > 0 ==> c.states[k] != 0)
    && var slots := known[c.states[k]];
       |slots| <= k
       && (forall j {:trigger slots[j]} :: 0 <= j < |slots| ==>
            Symbol(g, c.forest[k - |slots| + j]) in slots[j].symbols && c.states[k - |slots| + j] in slots[j].below)
       && (c.states[k] >= MIN_REDUCE ==> |g.rhs| == NRULE && |g.rhs[c.states[k] - MIN_REDUCE]| > 0)
  }

  ghost predicate ConfigOk(tb: Tables, g: Grammar, known: Known, c: Config) {
    && |known| == MAX_REDUCE + 1 && |c.states| == |c.forest| + 1 && c.states[0] == 0 && Planted(tb, g, c.forest)
    && (forall k {:trigger c.states[k]} :: 0 <= k < |c.states| ==> EntryOk(g, known, c, k))
  }
}
