/** Tables that cover a grammar let the parser follow every derivation of it. */
module ParserComplete {
  import opened Wrappers
  import opened ParserTables
  import opened ParserProof
  import opened ParserMachine

  /** What may stand at one place of a right-hand side: a token read in a given way, or a phrase of one kind. */
  datatype Part = Word(token: nat, reading: nat) | Phrase(kind: nat)

  /** One use of a rule of the parser's grammar. */
  datatype Fine = Fine(rule: nat, kind: nat, body: seq<set<Part>>)

  /** A grammar that says more precisely what goes where than the rules of the parser: rules can occur in
      it several times, with different kinds of phrases. Where the parser's grammar is ambiguous and
      precedence decides, this is the grammar that says what is meant. */
  datatype FineGrammar = FineGrammar(start: nat, rules: seq<Fine>)

  /** The rules used are rules of the parser. */
  ghost predicate Numbered(fg: FineGrammar) {
    forall f {:trigger fg.rules[f]} :: 0 <= f < |fg.rules| ==> fg.rules[f].rule < NRULE
  }

  function PartOf(fg: FineGrammar, t: Tree): Part {
    match t
    case Leaf(token, r) => Word(token, r)
    case Node(f, _) => Phrase(if f < |fg.rules| then fg.rules[f].kind else 0)
  }

  /** A derivation of the finer grammar; its nodes are numbered by the finer rules. */
  ghost predicate FineDerivation(fg: FineGrammar, t: Tree) {
    match t
    case Leaf(_, _) => true
    case Node(f, kids) =>
      && f < |fg.rules| && |kids| == |fg.rules[f].body|
      && (forall i {:trigger kids[i]} :: 0 <= i < |kids| ==> FineDerivation(fg, kids[i]))
      && (forall i {:trigger kids[i]} :: 0 <= i < |kids| ==> PartOf(fg, kids[i]) in fg.rules[f].body[i])
  }

  /** The tree of the parser's own rules. */
  function Coarse(fg: FineGrammar, t: Tree): Tree {
    match t
    case Leaf(_, _) => t
    case Node(f, kids) => Node(if f < |fg.rules| then fg.rules[f].rule else 0, CoarseAll(fg, kids))
  }

  function CoarseAll(fg: FineGrammar, ts: seq<Tree>): (r: seq<Tree>)
    ensures |r| == |ts|
  {
    seq(|ts|, i requires 0 <= i < |ts| => Coarse(fg, ts[i]))
  }

  /** How many moves a tree takes: one for each token and each rule. */
  function Size(t: Tree): nat {
    match t
    case Leaf(_, _) => 1
    case Node(_, kids) => SizeAll(kids) + 1
  }

  function SizeAll(ts: seq<Tree>): nat {
    if ts == [] then 0 else SizeAll(ts[..|ts| - 1]) + Size(ts[|ts| - 1])
  }

  /** How many places of the stack a tree takes. */
  function Depth(t: Tree): nat {
    match t
    case Leaf(_, _) => 1
    case Node(_, kids) => Max(DepthAll(kids), 1)
  }

  function DepthAll(ts: seq<Tree>): nat {
    if ts == [] then 0 else Max(DepthAll(ts[..|ts| - 1]), |ts| - 1 + Depth(ts[|ts| - 1]))
  }

  // ---------------------------------------------------------------- tables that cover a grammar

  /** Place dot of the right-hand side of a rule, and the token that follows the whole of it. */
  datatype Item = Item(f: nat, dot: nat, ahead: nat)

  type Items = seq<set<Item>>

  ghost predicate At(items: Items, s: nat, i: Item) {
    s < |items| && i in items[s]
  }

  /** ts derives what is left of the right-hand side. */
  ghost predicate Fills(fg: FineGrammar, body: seq<set<Part>>, ts: seq<Tree>) {
    |ts| == |body| && forall i {:trigger ts[i]} :: 0 <= i < |ts| ==>
      FineDerivation(fg, ts[i]) && PartOf(fg, ts[i]) in body[i]
  }

  /** Token t can come next where body is still to come and then ahead. */
  ghost predicate Next(fg: FineGrammar, body: seq<set<Part>>, ahead: nat, t: nat) {
    exists ts :: Fills(fg, body, ts) && (YieldAll(ts) + [ahead])[0] == t
  }

  /** At the end of a rule the tables reduce it. */
  ghost predicate EndOk(tb: Tables, fg: FineGrammar, s: nat, i: Item)
    requires Shaped(tb) && i.f < |fg.rules|
  {
    i.ahead < NTOKEN && ActionAt(tb, s, i.ahead) == MIN_REDUCE + fg.rules[i.f].rule
  }

  /** A token that may come next is shifted, read as it should be. */
  ghost predicate WordOk(tb: Tables, items: Items, s: nat, i: Item, token: nat, reading: nat)
    requires Shaped(tb) && s <= MAX_SHIFT
  {
    && token < NTOKEN && Reading(tb, s, token) == Some(reading) && Shifting(ShiftAction(tb, s, token))
    && At(items, ShiftTarget(ShiftAction(tb, s, token)), Item(i.f, i.dot + 1, i.ahead))
  }

  /** A phrase that may come next can be started with any token that can follow it, and has a goto. */
  ghost predicate PhraseOk(tb: Tables, fg: FineGrammar, items: Items, s: nat, i: Item, f: nat)
    requires Shaped(tb) && i.f < |fg.rules| && i.dot < |fg.rules[i.f].body|
    requires f < |fg.rules| && fg.rules[f].rule < NRULE
  {
    var x := tb.lhs[fg.rules[f].rule];
    && HasGoto(tb, s, x) && At(items, Goto(tb, s, x), Item(i.f, i.dot + 1, i.ahead))
    && forall t :: Next(fg, fg.rules[i.f].body[i.dot + 1..], i.ahead, t) ==> At(items, s, Item(f, 0, t))
  }

  ghost predicate RuleOk(g: Grammar, r: Fine) {
    r.rule < NRULE == |g.rhs| && |r.body| == |g.rhs[r.rule]|
  }

  ghost predicate ItemOk(tb: Tables, fg: FineGrammar, items: Items, s: nat, i: Item)
    requires Shaped(tb) && Numbered(fg)
  {
    && i.f < |fg.rules| && i.dot <= |fg.rules[i.f].body|
    && if i.dot == |fg.rules[i.f].body| then EndOk(tb, fg, s, i)
       else
         && s <= MAX_SHIFT
         && (forall token, reading :: Word(token, reading) in fg.rules[i.f].body[i.dot] ==>
              WordOk(tb, items, s, i, token, reading))
         && (forall f :: 0 <= f < |fg.rules| && Phrase(fg.rules[f].kind) in fg.rules[i.f].body[i.dot] ==>
              PhraseOk(tb, fg, items, s, i, f))
  }

  /** The start of the input: every rule for a start phrase begins in state 0, and its goto accepts. */
  ghost predicate StartOk(tb: Tables, fg: FineGrammar, items: Items)
    requires Shaped(tb) && Numbered(fg)
  {
    forall f {:trigger fg.rules[f]} :: 0 <= f < |fg.rules| && fg.rules[f].kind == fg.start ==>
      && At(items, 0, Item(f, 0, 0)) && HasGoto(tb, 0, tb.lhs[fg.rules[f].rule])
      && Goto(tb, 0, tb.lhs[fg.rules[f].rule]) == ACCEPT_ACTION
  }

  /** The tables cover the finer grammar: items says which rules can be under way in which state, and
      wherever one is, the tables do what it takes to go on with it. */
  ghost predicate Covers(tb: Tables, g: Grammar, fg: FineGrammar, items: Items) {
    && Shaped(tb) && (forall f :: 0 <= f < |fg.rules| ==> RuleOk(g, fg.rules[f]))
    && StartOk(tb, fg, items)
    && (forall s, i :: At(items, s, i) ==> ItemOk(tb, fg, items, s, i))
  }

  // ---------------------------------------------------------------- following a derivation

  function Push(c: Config, t: Tree, s: nat): Config {
    Config(c.states + [s], c.forest + [t])
  }

  /** The state that tree t leads to from state s. */
  function After(tb: Tables, fg: FineGrammar, s: nat, t: Tree): nat
    requires Shaped(tb) && Numbered(fg)
  {
    match t
    case Leaf(token, _) => if s <= MAX_SHIFT && token < NTOKEN then ShiftTarget(ShiftAction(tb, s, token)) else 0
    case Node(f, _) =>
      if f < |fg.rules| && HasGoto(tb, s, tb.lhs[fg.rules[f].rule]) then Goto(tb, s, tb.lhs[fg.rules[f].rule]) else 0
  }

  lemma CoversAt(tb: Tables, g: Grammar, fg: FineGrammar, items: Items, s: nat, i: Item)
    requires Covers(tb, g, fg, items) && At(items, s, i)
    ensures Numbered(fg)
    ensures i.f < |fg.rules| && RuleOk(g, fg.rules[i.f]) && ItemOk(tb, fg, items, s, i)
  {
    hide At, StartOk, Shaped, EndOk, WordOk, PhraseOk;
    assert forall f :: 0 <= f < |fg.rules| ==> RuleOk(g, fg.rules[f]);
  }

  /** A token. */
  lemma WalkWord(tb: Tables, g: Grammar, fg: FineGrammar, items: Items, t: Tree, c: Config, i: Item, rest: seq<nat>)
    requires Covers(tb, g, fg, items) && |c.states| == |c.forest| + 1 && At(items, Top(c), i) && t.Leaf?
    requires i.f < |fg.rules| && i.dot < |fg.rules[i.f].body| && PartOf(fg, t) in fg.rules[i.f].body[i.dot]
    requires Numbered(fg)
    ensures Leads(tb, g, Machine(c, Yield(t) + rest), Size(t), |c.forest| + Depth(t),
                  Machine(Push(c, Coarse(fg, t), After(tb, fg, Top(c), t)), rest))
    ensures At(items, After(tb, fg, Top(c), t), Item(i.f, i.dot + 1, i.ahead))
  {
    CoversAt(tb, g, fg, items, Top(c), i);
    assert WordOk(tb, items, Top(c), i, t.token, t.reading);
    hide Covers, At, ShiftAction, Reading, ItemOk, PhraseOk, HasGoto, Shaped, Leads;
    var m := Machine(c, Yield(t) + rest);
    assert m.rest[0] == t.token && m.rest[1..] == rest;
    OneMove(tb, g, m, Machine(Push(c, Coarse(fg, t), After(tb, fg, Top(c), t)), rest));
  }

  /** The reduction at the end of a rule: its right-hand side, pushed on c, gives way to the node. */
  lemma Closing(tb: Tables, g: Grammar, fg: FineGrammar, items: Items, t: Tree, c: Config, c': Config, rest: seq<nat>)
    requires Covers(tb, g, fg, items) && |c.states| == |c.forest| + 1 && t.Node? && t.rule < |fg.rules| && rest != []
    requires Numbered(fg)
    requires |t.kids| == |fg.rules[t.rule].body| && HasGoto(tb, Top(c), tb.lhs[fg.rules[t.rule].rule])
    requires |c'.states| == |c.states| + |t.kids| && c'.states[..|c.states|] == c.states
    requires c'.forest == c.forest + CoarseAll(fg, t.kids)
    requires At(items, Top(c'), Item(t.rule, |t.kids|, rest[0]))
    ensures Leads(tb, g, Machine(c', rest), 1, Max(|c.forest| + |t.kids|, |c.forest| + 1),
                  Machine(Push(c, Coarse(fg, t), After(tb, fg, Top(c), t)), rest))
  {
    var r, n := fg.rules[t.rule].rule, |t.kids|;
    CoversAt(tb, g, fg, items, Top(c'), Item(t.rule, n, rest[0]));
    assert EndOk(tb, fg, Top(c'), Item(t.rule, n, rest[0])) && |tb.lhs| == NRULE;
    hide Covers, At, ShiftAction, Reading, ItemOk, HasGoto, Shaped, Leads;
    assert c'.states[|c'.states| - 1 - n] == c'.states[..|c.states|][|c.states| - 1] == Top(c);
    assert Reducing(tb, g, c', MIN_REDUCE + r);
    assert c'.forest[..|c.forest|] == c.forest && c'.forest[|c.forest|..] == CoarseAll(fg, t.kids);
    assert Reduced(tb, g, c', r) == Push(c, Coarse(fg, t), After(tb, fg, Top(c), t));
    OneMove(tb, g, Machine(c', rest), Machine(Push(c, Coarse(fg, t), After(tb, fg, Top(c), t)), rest));
  }

  /** What follows kid n - 1, and how the lists split there. */
  lemma KidSplit(fg: FineGrammar, kids: seq<Tree>, n: nat, rest: seq<nat>)
    requires 0 < n <= |kids|
    ensures YieldAll(kids[n - 1..]) + rest == Yield(kids[n - 1]) + (YieldAll(kids[n..]) + rest)
    ensures CoarseAll(fg, kids[..n]) == CoarseAll(fg, kids[..n - 1]) + [Coarse(fg, kids[n - 1])]
    ensures SizeAll(kids[..n]) == SizeAll(kids[..n - 1]) + Size(kids[n - 1])
    ensures DepthAll(kids[..n]) == Max(DepthAll(kids[..n - 1]), n - 1 + Depth(kids[n - 1]))
  {
    hide Coarse, Size, Depth, Yield;
    assert kids[n - 1..] == [kids[n - 1]] + kids[n..] && kids[..n][..n - 1] == kids[..n - 1];
    YieldJoin([kids[n - 1]], kids[n..]);
    YieldOne(kids[n - 1]);
  }

  lemma NextAfter(fg: FineGrammar, t: Tree, n: nat, rest: seq<nat>)
    requires t.Node? && FineDerivation(fg, t) && 0 < n <= |t.kids| && rest != []
    ensures var after := YieldAll(t.kids[n..]) + rest;
      after != [] && Next(fg, fg.rules[t.rule].body[n..], rest[0], after[0])
  {
    var body, ts := fg.rules[t.rule].body, t.kids[n..];
    assert Fills(fg, body[n..], ts);
    assert (YieldAll(ts) + [rest[0]])[0] == (YieldAll(ts) + rest)[0];
  }

  lemma KidOk(fg: FineGrammar, t: Tree, k: nat)
    requires t.Node? && FineDerivation(fg, t) && k < |t.kids|
    ensures t.rule < |fg.rules| && |t.kids| == |fg.rules[t.rule].body|
    ensures FineDerivation(fg, t.kids[k]) && PartOf(fg, t.kids[k]) in fg.rules[t.rule].body[k]
  {
  }

  lemma Pushed(c: Config, c1: Config, ts: seq<Tree>, t: Tree, s: nat)
    requires |c.states| == |c.forest| + 1 && |c1.states| == |c.states| + |ts| && c1.states[..|c.states|] == c.states
    requires c1.forest == c.forest + ts
    ensures var c' := Push(c1, t, s);
      && |c'.states| == |c.states| + |ts| + 1 && c'.states[..|c.states|] == c.states && Top(c') == s
      && c'.forest == c.forest + (ts + [t])
  {
  }

  lemma MaxOver(h: nat, a: nat, n: nat, b: nat)
    ensures Max(h + a, h + n + b) == h + Max(a, n + b)
  {
  }

  /** The first n parts of a right-hand side have been followed, from c to c'. */
  ghost predicate Followed(tb: Tables, g: Grammar, fg: FineGrammar, items: Items, t: Tree, n: nat, c: Config,
      rest: seq<nat>, c': Config)
    requires Shaped(tb) && t.Node? && n <= |t.kids| && rest != []
  {
    && Leads(tb, g, Machine(c, YieldAll(t.kids) + rest), SizeAll(t.kids[..n]), |c.forest| + DepthAll(t.kids[..n]),
             Machine(c', YieldAll(t.kids[n..]) + rest))
    && |c'.states| == |c.states| + n && c'.states[..|c.states|] == c.states
    && c'.forest == c.forest + CoarseAll(fg, t.kids[..n]) && c'.states != []
    && At(items, Top(c'), Item(t.rule, n, rest[0]))
  }

  lemma FollowedMeans(tb: Tables, g: Grammar, fg: FineGrammar, items: Items, t: Tree, n: nat, c: Config,
      rest: seq<nat>, c': Config)
    requires Shaped(tb) && t.Node? && n <= |t.kids| && rest != [] && |c.states| == |c.forest| + 1
    requires Followed(tb, g, fg, items, t, n, c, rest, c')
    ensures |c'.states| == |c'.forest| + 1 && At(items, Top(c'), Item(t.rule, n, rest[0]))
  {
  }

  lemma FollowNone(tb: Tables, g: Grammar, fg: FineGrammar, items: Items, t: Tree, c: Config, rest: seq<nat>)
    requires Shaped(tb) && t.Node? && rest != [] && c.states != [] && At(items, Top(c), Item(t.rule, 0, rest[0]))
    ensures Followed(tb, g, fg, items, t, 0, c, rest, c)
  {
    assert t.kids[0..] == t.kids && t.kids[..0] == [];
  }

  lemma FollowOne(tb: Tables, g: Grammar, fg: FineGrammar, items: Items, t: Tree, n: nat, c: Config, rest: seq<nat>,
      c1: Config, s: nat)
    requires Shaped(tb) && t.Node? && 0 < n <= |t.kids| && rest != [] && |c.states| == |c.forest| + 1
    requires Followed(tb, g, fg, items, t, n - 1, c, rest, c1)
    requires Leads(tb, g, Machine(c1, Yield(t.kids[n - 1]) + (YieldAll(t.kids[n..]) + rest)), Size(t.kids[n - 1]),
                   |c1.forest| + Depth(t.kids[n - 1]),
                   Machine(Push(c1, Coarse(fg, t.kids[n - 1]), s), YieldAll(t.kids[n..]) + rest))
    requires At(items, s, Item(t.rule, n, rest[0]))
    ensures Followed(tb, g, fg, items, t, n, c, rest, Push(c1, Coarse(fg, t.kids[n - 1]), s))
  {
    hide Leads, At, Coarse, CoarseAll, Size, SizeAll, Depth, DepthAll, Yield, YieldAll, Max, Push, Shaped;
    var kids := t.kids;
    var kid, after := kids[n - 1], YieldAll(kids[n..]) + rest;
    var c' := Push(c1, Coarse(fg, kid), s);
    KidSplit(fg, kids, n, rest);
    Pushed(c, c1, CoarseAll(fg, kids[..n - 1]), Coarse(fg, kid), s);
    MaxOver(|c.forest|, DepthAll(kids[..n - 1]), n - 1, Depth(kid));
    var before, first := Machine(c, YieldAll(kids) + rest), Machine(c1, Yield(kid) + after);
    var p, q := |c.forest| + DepthAll(kids[..n - 1]), |c1.forest| + Depth(kid);
    assert |c1.forest| == |c.forest| + n - 1;
    assert Leads(tb, g, before, SizeAll(kids[..n - 1]), p, first);
    LeadsOn(tb, g, before, SizeAll(kids[..n - 1]), p, first, Size(kid), q, Machine(c', after));
  }

  /** The first n parts of a right-hand side. */
  lemma {:induction false} WalkKids(tb: Tables, g: Grammar, fg: FineGrammar, items: Items, t: Tree, n: nat, c: Config,
      rest: seq<nat>) returns (c': Config)
    requires Covers(tb, g, fg, items) && |c.states| == |c.forest| + 1 && t.Node? && FineDerivation(fg, t) && rest != []
    requires Numbered(fg) && n <= |t.kids| && At(items, Top(c), Item(t.rule, 0, rest[0]))
    ensures Followed(tb, g, fg, items, t, n, c, rest, c')
    decreases t, 0, n
  {
    hide *;
    assert Shaped(tb) by { Shape(tb, g, fg, items); }
    if n == 0 {
      c' := c;
      FollowNone(tb, g, fg, items, t, c, rest);
    } else {
      KidOk(fg, t, n - 1);
      NextAfter(fg, t, n, rest);
      var c1 := WalkKids(tb, g, fg, items, t, n - 1, c, rest);
      FollowedMeans(tb, g, fg, items, t, n - 1, c, rest, c1);
      var s := After(tb, fg, Top(c1), t.kids[n - 1]);
      c' := Push(c1, Coarse(fg, t.kids[n - 1]), s);
      WalkPart(tb, g, fg, items, t.kids[n - 1], c1, Item(t.rule, n - 1, rest[0]), YieldAll(t.kids[n..]) + rest);
      FollowOne(tb, g, fg, items, t, n, c, rest, c1, s);
    }
  }

  lemma Shape(tb: Tables, g: Grammar, fg: FineGrammar, items: Items)
    requires Covers(tb, g, fg, items)
    ensures Shaped(tb) && |tb.lhs| == NRULE
  {
  }

  /** A phrase by rule t.rule, from where the rule begins to its goto. */
  lemma {:induction false} WalkNode(tb: Tables, g: Grammar, fg: FineGrammar, items: Items, t: Tree, c: Config,
      rest: seq<nat>)
    requires Covers(tb, g, fg, items) && |c.states| == |c.forest| + 1 && t.Node? && FineDerivation(fg, t) && rest != []
    requires Numbered(fg)
    requires At(items, Top(c), Item(t.rule, 0, rest[0])) && HasGoto(tb, Top(c), tb.lhs[fg.rules[t.rule].rule])
    ensures Leads(tb, g, Machine(c, Yield(t) + rest), Size(t), |c.forest| + Depth(t),
                  Machine(Push(c, Coarse(fg, t), After(tb, fg, Top(c), t)), rest))
    decreases t, 1
  {
    assert Shaped(tb) && |t.kids| == |fg.rules[t.rule].body|;
    hide *;
    var c' := WalkKids(tb, g, fg, items, t, |t.kids|, c, rest);
    CloseNode(tb, g, fg, items, t, c, rest, c');
  }

  lemma CloseNode(tb: Tables, g: Grammar, fg: FineGrammar, items: Items, t: Tree, c: Config, rest: seq<nat>, c': Config)
    requires Covers(tb, g, fg, items) && |c.states| == |c.forest| + 1 && t.Node? && t.rule < |fg.rules| && rest != []
    requires Numbered(fg) && |t.kids| == |fg.rules[t.rule].body| && HasGoto(tb, Top(c), tb.lhs[fg.rules[t.rule].rule])
    requires Followed(tb, g, fg, items, t, |t.kids|, c, rest, c')
    ensures Leads(tb, g, Machine(c, Yield(t) + rest), Size(t), |c.forest| + Depth(t),
                  Machine(Push(c, Coarse(fg, t), After(tb, fg, Top(c), t)), rest))
  {
    hide *;
    Shape(tb, g, fg, items);
    var kids, r := t.kids, fg.rules[t.rule].rule;
    FollowedAll(tb, g, fg, items, t, c, rest, c');
    Closing(tb, g, fg, items, t, c, c', rest);
    HighEnough(kids);
    LeadsOn(tb, g, Machine(c, Yield(t) + rest), SizeAll(kids), |c.forest| + DepthAll(kids), Machine(c', rest),
            1, Max(|c.forest| + |kids|, |c.forest| + 1),
            Machine(Push(c, Coarse(fg, t), After(tb, fg, Top(c), t)), rest));
    NodePeak(|c.forest|, t);
  }

  lemma NodePeak(h: nat, t: Tree)
    requires t.Node? && DepthAll(t.kids) >= |t.kids|
    ensures Max(h + DepthAll(t.kids), Max(h + |t.kids|, h + 1)) == h + Depth(t) && Size(t) == SizeAll(t.kids) + 1
  {
    hide DepthAll, SizeAll;
  }

  lemma FollowedAll(tb: Tables, g: Grammar, fg: FineGrammar, items: Items, t: Tree, c: Config, rest: seq<nat>,
      c': Config)
    requires Shaped(tb) && t.Node? && rest != [] && Followed(tb, g, fg, items, t, |t.kids|, c, rest, c')
    ensures Leads(tb, g, Machine(c, Yield(t) + rest), SizeAll(t.kids), |c.forest| + DepthAll(t.kids), Machine(c', rest))
    ensures |c'.states| == |c.states| + |t.kids| && c'.states[..|c.states|] == c.states
    ensures c'.states != [] && c'.forest == c.forest + CoarseAll(fg, t.kids)
    ensures At(items, Top(c'), Item(t.rule, |t.kids|, rest[0]))
  {
    hide Leads, At, CoarseAll, SizeAll, DepthAll, Shaped;
    assert t.kids[..|t.kids|] == t.kids && YieldAll(t.kids[|t.kids|..]) + rest == rest;
  }

  lemma HighEnough(ts: seq<Tree>)
    ensures DepthAll(ts) >= |ts|
  {
    if ts != [] { AtLeastOne(ts[|ts| - 1]); }
  }

  lemma AtLeastOne(t: Tree)
    ensures Depth(t) >= 1
  {
  }

  /** What may stand at the dot. */
  lemma {:induction false} WalkPart(tb: Tables, g: Grammar, fg: FineGrammar, items: Items, t: Tree, c: Config, i: Item,
      rest: seq<nat>)
    requires Covers(tb, g, fg, items) && |c.states| == |c.forest| + 1 && FineDerivation(fg, t) && rest != []
    requires Numbered(fg)
    requires At(items, Top(c), i) && i.f < |fg.rules| && i.dot < |fg.rules[i.f].body|
    requires PartOf(fg, t) in fg.rules[i.f].body[i.dot] && Next(fg, fg.rules[i.f].body[i.dot + 1..], i.ahead, rest[0])
    ensures Leads(tb, g, Machine(c, Yield(t) + rest), Size(t), |c.forest| + Depth(t),
                  Machine(Push(c, Coarse(fg, t), After(tb, fg, Top(c), t)), rest))
    ensures At(items, After(tb, fg, Top(c), t), Item(i.f, i.dot + 1, i.ahead))
    decreases t, 2
  {
    match t
    case Leaf(_, _) => WalkWord(tb, g, fg, items, t, c, i, rest);
    case Node(f, _) =>
      CoversAt(tb, g, fg, items, Top(c), i);
      assert PhraseOk(tb, fg, items, Top(c), i, f);
      hide Covers, Next, Leads, ItemOk;
      WalkNode(tb, g, fg, items, t, c, rest);
  }

  // ---------------------------------------------------------------- whole inputs

  /** Tree t of the finer grammar is what the tokens are meant as. */
  ghost predicate Meant(fg: FineGrammar, t: Tree, tokens: seq<nat>) {
    FineDerivation(fg, t) && PartOf(fg, t) == Phrase(fg.start) && Yield(t) == tokens
  }

  function Started(tokens: seq<nat>): Machine {
    Machine(Config([0], []), tokens + [0])
  }

  /** All moves of a parse: the tree meant is the tree on the stack when the accepting state is reached. */
  lemma WalkInput(tb: Tables, g: Grammar, fg: FineGrammar, items: Items, t: Tree, tokens: seq<nat>)
    requires Covers(tb, g, fg, items) && Meant(fg, t, tokens)
    ensures Shaped(tb)
    ensures Leads(tb, g, Started(tokens), Size(t), Depth(t), Machine(Config([0, ACCEPT_ACTION], [Coarse(fg, t)]), [0]))
  {
    var c := Config([0], []);
    StartHolds(tb, g, fg, items, t);
    hide Covers, FineDerivation, Leads, At, Coarse, Size, Depth, Yield, HasGoto, Shaped, Goto;
    WalkNode(tb, g, fg, items, t, c, [0]);
    assert Push(c, Coarse(fg, t), ACCEPT_ACTION) == Config([0, ACCEPT_ACTION], [Coarse(fg, t)]);
  }

  lemma StartHolds(tb: Tables, g: Grammar, fg: FineGrammar, items: Items, t: Tree)
    requires Covers(tb, g, fg, items) && FineDerivation(fg, t) && PartOf(fg, t) == Phrase(fg.start)
    ensures t.Node? && t.rule < |fg.rules| && Numbered(fg) && Shaped(tb) && |tb.lhs| == NRULE
    ensures At(items, 0, Item(t.rule, 0, 0)) && HasGoto(tb, 0, tb.lhs[fg.rules[t.rule].rule])
    ensures Goto(tb, 0, tb.lhs[fg.rules[t.rule].rule]) == ACCEPT_ACTION
  {
    hide ItemOk, At;
  }

  /** Where the tables cover the finer grammar, tokens cannot be meant as two different trees. */
  lemma OneMeaning(tb: Tables, g: Grammar, fg: FineGrammar, items: Items, t1: Tree, t2: Tree, tokens: seq<nat>)
    requires Covers(tb, g, fg, items) && Meant(fg, t1, tokens) && Meant(fg, t2, tokens)
    ensures Coarse(fg, t1) == Coarse(fg, t2)
  {
    WalkInput(tb, g, fg, items, t1, tokens);
    WalkInput(tb, g, fg, items, t2, tokens);
    var end1, end2 := Machine(Config([0, ACCEPT_ACTION], [Coarse(fg, t1)]), [0]),
                      Machine(Config([0, ACCEPT_ACTION], [Coarse(fg, t2)]), [0]);
    hide Covers, Meant, Shaped, Started, Size, Depth, Coarse, Moved;
    if Size(t1) < Size(t2) {
      NoneAfterAccept(tb, g, Started(tokens), Size(t1), end1, Size(t2));
    } else if Size(t2) < Size(t1) {
      NoneAfterAccept(tb, g, Started(tokens), Size(t2), end2, Size(t1));
    }
    assert end1.config.forest[0] == end2.config.forest[0];
  }

  /** Where a parse stopped: after m moves inside the stack, at machine m1, with this outcome. */
  ghost predicate Stopped(tb: Tables, g: Grammar, m0: Machine, turns: nat, m: nat, m1: Machine, out: Outcome)
    requires Shaped(tb)
  {
    && Within(tb, g, m0, m, m1) && m1.rest != [] && m1.rest[0] < NTOKEN && m1.config.states != []
    && if out.Unfinished? then m >= turns
       else (out.Shifted? ==> |m1.rest| == 1) && exists c' :: Turned(tb, g, m1.config, m1.rest[0], out, c')
  }

  /** A parse can stop in one way only on an input that is meant as something: it accepts if the stack is
      large enough, and overflows if it is not. */
  lemma StopsRight(tb: Tables, g: Grammar, fg: FineGrammar, items: Items, t: Tree, tokens: seq<nat>, turns: nat, m: nat,
      m1: Machine, out: Outcome)
    requires Covers(tb, g, fg, items) && Meant(fg, t, tokens) && turns > Size(t)
    requires Shaped(tb) && Stopped(tb, g, Started(tokens), turns, m, m1, out)
    ensures out == if Depth(t) < YYSTACKDEPTH then Accepted else Overflowed
    ensures out.Accepted? ==> m1 == Machine(Config([0, ACCEPT_ACTION], [Coarse(fg, t)]), [0])
  {
    WalkInput(tb, g, fg, items, t, tokens);
    var n, end := Size(t), Machine(Config([0, ACCEPT_ACTION], [Coarse(fg, t)]), [0]);
    hide Covers, Meant, Shaped, Started, Size, Depth, Coarse;
    if m > n {
      NoneAfterAccept(tb, g, Started(tokens), n, end, m);
    } else if m == n {
      AcceptsHere(tb, g, end, out);
    } else {
      StopsBetween(tb, g, Started(tokens), n, Depth(t), end, m, m1, out);
    }
  }

  lemma NoneAfterAccept(tb: Tables, g: Grammar, m0: Machine, n: nat, end: Machine, m: nat)
    requires Shaped(tb) && Moved(tb, g, m0, n) == Some(end) && end.config.states == [0, ACCEPT_ACTION] && n < m
    ensures Moved(tb, g, m0, m) == None
  {
    Compose(tb, g, m0, n, m - n);
    hide Shaped, ShiftAction;
    assert Move(tb, g, end) == None;
  }

  lemma AcceptsHere(tb: Tables, g: Grammar, end: Machine, out: Outcome)
    requires Shaped(tb) && end.config.states == [0, ACCEPT_ACTION] && end.rest == [0] && !out.Unfinished?
    requires exists c' :: Turned(tb, g, end.config, 0, out, c')
    ensures out == Accepted
  {
    hide Shaped, ShiftAction;
    assert Move(tb, g, Machine(end.config, [0])) == None;
  }

  /** Before the end of the path there is a move, so the outcome can only be that the stack is full. */
  lemma StopsBetween(tb: Tables, g: Grammar, m0: Machine, n: nat, peak: nat, end: Machine, m: nat, m1: Machine,
      out: Outcome)
    requires Shaped(tb) && Leads(tb, g, m0, n, peak, end) && end.rest == [0] && m < n
    requires Within(tb, g, m0, m, m1) && m1.rest != [] && m1.rest[0] < NTOKEN && m1.config.states != []
    requires !out.Unfinished?
    requires out.Shifted? ==> |m1.rest| == 1
    requires exists c' :: Turned(tb, g, m1.config, m1.rest[0], out, c')
    ensures out == Overflowed && peak >= YYSTACKDEPTH
  {
    hide Move, Shaped, Turned;
    Compose(tb, g, m0, m, n - m);
    Compose(tb, g, m1, 1, n - m - 1) by { assert Moved(tb, g, m1, 1).Some?; }
    var c' :| Turned(tb, g, m1.config, m1.rest[0], out, c');
    var m2 := Move(tb, g, m1).value;
    AtLeastNow(tb, g, m2, n - m - 1);
    MovableTurn(tb, g, m1, m2, out, c');
    if out.Shifted? {
      NothingLeft(tb, g, m2, n - m - 1);
    }
  }

  lemma MovableTurn(tb: Tables, g: Grammar, m1: Machine, m2: Machine, out: Outcome, c': Config)
    requires Shaped(tb) && Move(tb, g, m1) == Some(m2) && m1.rest != [] && m1.rest[0] < NTOKEN && m1.config.states != []
    requires Turned(tb, g, m1.config, m1.rest[0], out, c') && !out.Unfinished? && (out.Shifted? ==> |m1.rest| == 1)
    ensures out.Overflowed? || out.Shifted?
    ensures out.Overflowed? ==> Height(m2) >= YYSTACKDEPTH
    ensures out.Shifted? ==> m2.rest == []
  {
    MoveLocal(tb, g, m1.config, m1.rest);
    MovesMean(tb, g, m1);
    hide Shaped, Move, ShiftAction;
  }

  lemma NothingLeft(tb: Tables, g: Grammar, m: Machine, n: nat)
    requires Shaped(tb) && m.rest == []
    ensures Moved(tb, g, m, n).Some? ==> Moved(tb, g, m, n).value.rest == []
  {
  }

  // ---------------------------------------------------------------- the parser's own grammar

  /** The words and phrases that symbols allow. */
  ghost function PartsOf(tb: Tables, symbols: set<nat>): set<Part> {
    (set x | x in symbols :: Phrase(x)) +
    (set x, token | x in symbols && 0 <= token < NTOKEN && Readable(tb, token, x) :: Word(token, x))
  }

  ghost function PlainBody(tb: Tables, rhs: seq<set<nat>>): (r: seq<set<Part>>)
    ensures |r| == |rhs|
  {
    seq(|rhs|, i requires 0 <= i < |rhs| => PartsOf(tb, rhs[i]))
  }

  /** The parser's grammar itself, made no finer. */
  ghost function Plain(tb: Tables, g: Grammar): (fg: FineGrammar)
    requires |g.lhs| == |g.rhs|
    ensures |fg.rules| == |g.lhs| && fg.start == g.start
  {
    FineGrammar(g.start, seq(|g.lhs|, r requires 0 <= r < |g.lhs| => Fine(r, g.lhs[r], PlainBody(tb, g.rhs[r]))))
  }

  lemma {:induction false} PlainDerivation(tb: Tables, g: Grammar, t: Tree)
    requires |g.lhs| == |g.rhs| && Derivation(tb, g, t)
    ensures FineDerivation(Plain(tb, g), t)
    ensures PartOf(Plain(tb, g), t) == if t.Node? then Phrase(Symbol(g, t)) else Word(t.token, t.reading)
  {
    var fg := Plain(tb, g);
    if t.Node? {
      forall i {:trigger t.kids[i]} | 0 <= i < |t.kids|
        ensures FineDerivation(fg, t.kids[i]) && PartOf(fg, t.kids[i]) in fg.rules[t.rule].body[i]
      {
        PlainDerivation(tb, g, t.kids[i]);
      }
    }
  }

  /** When the grammar needs no refining, every derivation of it is what is meant. */
  lemma DerivedIsMeant(tb: Tables, g: Grammar, t: Tree)
    requires |g.lhs| == |g.rhs| && |tb.fallback| <= NTOKEN && Derivation(tb, g, t) && Symbol(g, t) == g.start >= NTOKEN
    requires forall k {:trigger tb.fallback[k]} :: 0 <= k < |tb.fallback| ==> tb.fallback[k] < NTOKEN
    ensures Meant(Plain(tb, g), t, Yield(t))
  {
    PlainDerivation(tb, g, t);
  }
}
