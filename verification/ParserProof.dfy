/** Shifts and reductions keep every entry of the stack as its state promises. */
module ParserProof {
  import opened ParserTables

  function Shift(c: Config, token: nat, reading: nat, target: nat): Config {
    Config(c.states + [target], c.forest + [Leaf(token, reading)])
  }

  /** The entries of a right-hand side of length n give way to one entry for the left-hand side. */
  function Reduce(c: Config, r: nat, n: nat, target: nat): Config
    requires n <= |c.forest| < |c.states|
  {
    Config(c.states[..|c.states| - n] + [target], c.forest[..|c.forest| - n] + [Node(r, c.forest[|c.forest| - n..])])
  }

  function Top(c: Config): nat
    requires c.states != []
  {
    c.states[|c.states| - 1]
  }

  /** What an entry promises depends on the stack below it only. */
  lemma EntryStays(g: Grammar, known: Known, c: Config, c': Config, k: nat)
    requires |known| == MAX_REDUCE + 1 && |c.states| == |c.forest| + 1 && |c'.states| == |c'.forest| + 1
    requires k < |c.states| && k < |c'.states| && EntryOk(g, known, c, k)
    requires c'.states[..k + 1] == c.states[..k + 1] && c'.forest[..k] == c.forest[..k]
    ensures EntryOk(g, known, c', k)
  {
    assert forall i :: 0 <= i <= k ==> c'.states[i] == c'.states[..k + 1][i] == c.states[i];
    assert forall i :: 0 <= i < k ==> c'.forest[i] == c'.forest[..k][i] == c.forest[i];
  }

  lemma EntryAt(tb: Tables, g: Grammar, known: Known, c: Config, k: nat)
    requires ConfigOk(tb, g, known, c) && k < |c.states|
    ensures EntryOk(g, known, c, k)
  {
    var s := c.states[k];
  }

  lemma PlantedPush(tb: Tables, g: Grammar, forest: seq<Tree>, t: Tree)
    requires Planted(tb, g, forest) && Derivation(tb, g, t)
    ensures Planted(tb, g, forest + [t])
  {
  }

  lemma PlantedPop(tb: Tables, g: Grammar, forest: seq<Tree>, n: nat)
    requires Planted(tb, g, forest) && n <= |forest|
    ensures Planted(tb, g, forest[..n])
  {
  }

  /** Whatever is pushed where PushOk allows it, the stack stays as promised. */
  lemma PushKeeps(tb: Tables, g: Grammar, known: Known, c: Config, t: Tree, target: nat)
    requires ConfigOk(tb, g, known, c) && |g.rhs| == NRULE && Derivation(tb, g, t)
    requires Top(c) <= MAX_REDUCE && PushOk(g, known, Top(c), Symbol(g, t), target)
    ensures ConfigOk(tb, g, known, Config(c.states + [target], c.forest + [t]))
  {
    EntryAt(tb, g, known, c, |c.forest|);
    PlantedPush(tb, g, c.forest, t);
    hide EntryOk, PushOk, Derivation, Planted;
    var c' := Config(c.states + [target], c.forest + [t]);
    var n := |c.states|;
    forall k | 0 <= k < |c'.states|
      ensures EntryOk(g, known, c', k)
    {
      if k < n {
        EntryAt(tb, g, known, c, k);
        EntryStays(g, known, c, c', k);
      } else {
        PushedEntry(tb, g, known, c, t, target);
      }
    }
  }

  lemma PushedEntry(tb: Tables, g: Grammar, known: Known, c: Config, t: Tree, target: nat)
    requires |known| == MAX_REDUCE + 1 && |c.states| == |c.forest| + 1 && EntryOk(g, known, c, |c.forest|)
    requires |g.rhs| == NRULE && Top(c) <= MAX_REDUCE && PushOk(g, known, Top(c), Symbol(g, t), target)
    ensures EntryOk(g, known, Config(c.states + [target], c.forest + [t]), |c.states|)
  {
    hide Symbol;
    var c' := Config(c.states + [target], c.forest + [t]);
    var n := |c.states|;
    var slots, slots' := known[Top(c)], known[target];
    forall j {:trigger slots'[j]} | 0 <= j < |slots'|
      ensures Symbol(g, c'.forest[n - |slots'| + j]) in slots'[j].symbols
      ensures c'.states[n - |slots'| + j] in slots'[j].below
    {
      if j < |slots'| - 1 {
        var i := |slots| - |slots'| + 1 + j;
        assert slots[i].symbols <= slots'[j].symbols && slots[i].below <= slots'[j].below;
      }
    }
  }

  /** A stack cut off at any height is still as promised. */
  lemma PopKeeps(tb: Tables, g: Grammar, known: Known, c: Config, n: nat)
    requires ConfigOk(tb, g, known, c) && n <= |c.forest|
    ensures ConfigOk(tb, g, known, Config(c.states[..|c.states| - n], c.forest[..|c.forest| - n]))
  {
    PlantedPop(tb, g, c.forest, |c.forest| - n);
    hide EntryOk, Derivation, Planted;
    var c' := Config(c.states[..|c.states| - n], c.forest[..|c.forest| - n]);
    forall k | 0 <= k < |c'.states|
      ensures EntryOk(g, known, c', k)
    {
      EntryAt(tb, g, known, c, k);
      EntryStays(g, known, c, c', k);
    }
  }

  /** The top of the stack reads like the right-hand side of rule r. */
  lemma RhsMatches(tb: Tables, g: Grammar, known: Known, c: Config, r: nat)
    requires |known| == MAX_REDUCE + 1 && |c.states| == |c.forest| + 1 && EntryOk(g, known, c, |c.forest|)
    requires Shaped(tb) && |g.rhs| == NRULE && r < NRULE && Top(c) <= MAX_REDUCE && ReduceOk(tb, g, known, Top(c), r)
    ensures |g.rhs[r]| <= |c.forest|
    ensures forall i {:trigger c.forest[|c.forest| - |g.rhs[r]|..][i]} :: 0 <= i < |g.rhs[r]| ==>
      Symbol(g, c.forest[|c.forest| - |g.rhs[r]|..][i]) in g.rhs[r][i]
  {
    hide Shaped, GotoOk, Symbol;
    var n := |g.rhs[r]|;
    var h := |c.forest|;
    var slots := known[Top(c)];
    var kids := c.forest[h - n..];
    forall i {:trigger kids[i]} | 0 <= i < n
      ensures Symbol(g, kids[i]) in g.rhs[r][i]
    {
      var j := |slots| - n + i;
      assert slots[j].symbols <= g.rhs[r][i];
    }
  }

  /** The state uncovered by taking the right-hand side off has a goto. */
  lemma UncoveredGoto(tb: Tables, g: Grammar, known: Known, c: Config, r: nat)
    requires |known| == MAX_REDUCE + 1 && |c.states| == |c.forest| + 1 && EntryOk(g, known, c, |c.forest|)
    requires Shaped(tb) && |g.rhs| == NRULE && r < NRULE && Top(c) <= MAX_REDUCE && ReduceOk(tb, g, known, Top(c), r)
    ensures |g.rhs[r]| <= |c.forest| && GotoOk(tb, g, known, c.states[|c.forest| - |g.rhs[r]|], tb.lhs[r])
  {
    hide Shaped, GotoOk, Symbol;
    var n := |g.rhs[r]|;
    var slots := known[Top(c)];
    if n > 0 {
      var j := |slots| - n;
      assert c.states[|c.forest| - |slots| + j] in slots[j].below;
    }
  }

  /** Where rule r may be reduced, the stack holds its right-hand side, and the goto is there. */
  lemma ReduceFinds(tb: Tables, g: Grammar, known: Known, c: Config, r: nat)
    requires ConfigOk(tb, g, known, c) && Fits(tb, g, known) && r < NRULE
    requires Top(c) <= MAX_REDUCE && ReduceOk(tb, g, known, Top(c), r)
    ensures |g.rhs[r]| <= |c.forest|
    ensures Derivation(tb, g, Node(r, c.forest[|c.forest| - |g.rhs[r]|..]))
    ensures GotoOk(tb, g, known, c.states[|c.forest| - |g.rhs[r]|], tb.lhs[r])
  {
    EntryAt(tb, g, known, c, |c.forest|);
    FitsFacts(tb, g, known, r);
    hide EntryOk, ReduceOk, Derivation, GotoOk;
    RhsMatches(tb, g, known, c, r);
    UncoveredGoto(tb, g, known, c, r);
    NodeDerives(tb, g, c, r);
  }

  lemma NodeDerives(tb: Tables, g: Grammar, c: Config, r: nat)
    requires Planted(tb, g, c.forest) && r < NRULE == |g.rhs| == |g.lhs| && |g.rhs[r]| <= |c.forest|
    requires forall i {:trigger c.forest[|c.forest| - |g.rhs[r]|..][i]} :: 0 <= i < |g.rhs[r]| ==>
      Symbol(g, c.forest[|c.forest| - |g.rhs[r]|..][i]) in g.rhs[r][i]
    ensures Derivation(tb, g, Node(r, c.forest[|c.forest| - |g.rhs[r]|..]))
  {
    var kids := c.forest[|c.forest| - |g.rhs[r]|..];
    forall i {:trigger kids[i]} | 0 <= i < |kids|
      ensures Derivation(tb, g, kids[i])
    {
      assert kids[i] == c.forest[|c.forest| - |g.rhs[r]| + i];
    }
  }

  /** A reduction: the goto exists, is no error, and the stack afterwards is as promised and stands for
      the same tokens. */
  lemma ReduceKeeps(tb: Tables, g: Grammar, known: Known, c: Config, r: nat)
    requires ConfigOk(tb, g, known, c) && Fits(tb, g, known) && r < NRULE
    requires Top(c) <= MAX_REDUCE && ReduceOk(tb, g, known, Top(c), r)
    ensures |g.rhs[r]| <= |c.forest| && GotoOk(tb, g, known, c.states[|c.forest| - |g.rhs[r]|], tb.lhs[r])
    ensures var n := |g.rhs[r]|; var p := c.states[|c.forest| - n];
      var c' := Reduce(c, r, n, tb.action[tb.reduceOfst[p] + tb.lhs[r]]);
      ConfigOk(tb, g, known, c') && YieldAll(c'.forest) == YieldAll(c.forest)
  {
    ReduceFinds(tb, g, known, c, r);
    FitsFacts(tb, g, known, r);
    hide Fits, ConfigOk, ReduceOk, Derivation, PushOk;
    var n := |g.rhs[r]|;
    YieldReduced(c.forest, n, r);
    SameHeight(tb, g, known, c);
    var rest := Config(c.states[..|c.states| - n], c.forest[..|c.forest| - n]);
    var p := c.states[|c.forest| - n];
    PopKeeps(tb, g, known, c, n);
    PushKeeps(tb, g, known, rest, Node(r, c.forest[|c.forest| - n..]), tb.action[tb.reduceOfst[p] + tb.lhs[r]]);
  }

  lemma SameHeight(tb: Tables, g: Grammar, known: Known, c: Config)
    requires ConfigOk(tb, g, known, c)
    ensures |c.states| == |c.forest| + 1
  {
  }

  lemma YieldReduced(forest: seq<Tree>, n: nat, r: nat)
    requires n <= |forest|
    ensures YieldAll(forest[..|forest| - n] + [Node(r, forest[|forest| - n..])]) == YieldAll(forest)
  {
    var rest, kids := forest[..|forest| - n], forest[|forest| - n..];
    assert forest == rest + kids;
    YieldJoin(rest, kids);
    YieldJoin(rest, [Node(r, kids)]);
    YieldOne(Node(r, kids));
  }

  lemma FitsFacts(tb: Tables, g: Grammar, known: Known, r: nat)
    requires Fits(tb, g, known) && r < NRULE
    ensures |known| == MAX_REDUCE + 1 && |g.rhs| == NRULE && |g.lhs| == NRULE
    ensures g.lhs[r] == tb.lhs[r] && tb.nrhs[r] == -|g.rhs[r]|
  {
  }

  lemma YieldOne(t: Tree)
    ensures YieldAll([t]) == Yield(t)
  {
    assert [t][..0] == [];
  }

  /** What the action found for a token in an unfinished state may be. */
  lemma ActionMeans(tb: Tables, g: Grammar, known: Known, s: nat, t: nat)
    requires Fits(tb, g, known) && s <= MAX_SHIFT && t < NTOKEN
    ensures var a := ShiftAction(tb, s, t);
      || a == ERROR_ACTION
      || (MIN_REDUCE <= a <= MAX_REDUCE && ReduceOk(tb, g, known, s, a - MIN_REDUCE))
      || ((a <= MAX_SHIFT || MIN_SHIFTREDUCE <= a <= MAX_SHIFTREDUCE) && Reading(tb, s, t).Some?
          && PushOk(g, known, s, Reading(tb, s, t).value, ShiftTarget(a)))
  {
    hide ReduceOk, PushOk;
    match Reading(tb, s, t)
    case Some(r) => assert ColumnOk(tb, g, known, s, r);
    case None => assert DefaultOk(tb, g, known, s);
  }

  lemma ShiftKeeps(tb: Tables, g: Grammar, known: Known, c: Config, token: nat, target: nat)
    requires ConfigOk(tb, g, known, c) && Fits(tb, g, known) && token < NTOKEN
    requires Top(c) <= MAX_SHIFT && Reading(tb, Top(c), token).Some?
    requires PushOk(g, known, Top(c), Reading(tb, Top(c), token).value, target)
    ensures var c' := Shift(c, token, Reading(tb, Top(c), token).value, target);
      ConfigOk(tb, g, known, c') && YieldAll(c'.forest) == YieldAll(c.forest) + [token]
  {
    var leaf := Leaf(token, Reading(tb, Top(c), token).value);
    FitsFacts(tb, g, known, 0);
    PushKeeps(tb, g, known, c, leaf, target);
    YieldJoin(c.forest, [leaf]);
    YieldOne(leaf);
  }

  /** A pending reduce on top of the stack can be carried out. */
  lemma PendingOk(tb: Tables, g: Grammar, known: Known, c: Config)
    requires ConfigOk(tb, g, known, c) && Fits(tb, g, known) && Top(c) >= MIN_REDUCE
    ensures Top(c) <= MAX_REDUCE && ReduceOk(tb, g, known, Top(c), Top(c) - MIN_REDUCE)
  {
    hide ReduceOk;
    EntryAt(tb, g, known, c, |c.forest|);
    var r := Top(c) - MIN_REDUCE;
    assert ReduceOk(tb, g, known, MIN_REDUCE + r, r);
  }

  /** An accepting state on top means that the whole stack is one tree for the start symbol. */
  lemma AcceptMeans(tb: Tables, g: Grammar, known: Known, c: Config)
    requires ConfigOk(tb, g, known, c) && Fits(tb, g, known) && Top(c) == ACCEPT_ACTION
    ensures |c.forest| == 1 && Derives(tb, g, YieldAll(c.forest))
  {
    var h := |c.forest|;
    EntryAt(tb, g, known, c, h);
    var slots := known[ACCEPT_ACTION];
    assert Symbol(g, c.forest[h - 1]) in slots[0].symbols && c.states[h - 1] in slots[0].below;
    EntryAt(tb, g, known, c, h - 1);
    var t := c.forest[0];
    assert c.forest == [t];
    YieldOne(t);
    assert Derivation(tb, g, t) && Symbol(g, t) == g.start && Yield(t) == YieldAll(c.forest);
  }
}
