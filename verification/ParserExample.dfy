/** The smallest tables that fit a grammar and cover it: a single rule, "input is a semicolon". */
module ParserExample {
  import opened ParserTables
  import opened ParserMachine
  import opened ParserComplete
  import E = ParserEngine

  const SEMI := 1
  const INPUT := 155
  const UNUSED := 156

  function Toy(): Grammar {
    Grammar(INPUT, seq(NRULE, r => if r == 0 then INPUT else UNUSED), seq(NRULE, r => if r == 0 then [{SEMI}] else []))
  }

  /** In state 0 the semicolon shifts and reduces; the goto on the input accepts. */
  function ToyTables(): Tables {
    Tables(seq(300, i => if i == SEMI then MIN_SHIFTREDUCE else if i == INPUT then ACCEPT_ACTION else ERROR_ACTION),
           seq(300, i => if i == SEMI || i == INPUT then i else 400),
           seq(MAX_SHIFT + 1, s => if s == 0 then 0 else 200),
           seq(REDUCE_COUNT + 1, p => 0),
           seq(MAX_SHIFT + 1, s => ERROR_ACTION),
           [],
           seq(NRULE, r => if r == 0 then INPUT else UNUSED),
           seq(NRULE, r => if r == 0 then -1 else 0))
  }

  function ToyKnown(): Known {
    seq(MAX_REDUCE + 1, s => if s == MIN_REDUCE then [Slot({SEMI}, {0})]
                             else if s == ACCEPT_ACTION then [Slot({INPUT}, {0})] else [])
  }

  function ToyItems(): Items {
    seq(MAX_REDUCE + 1, s => if s == 0 then {Item(0, 0, 0)} else if s == MIN_REDUCE then {Item(0, 1, 0)} else {})
  }

  lemma ToyShaped()
    ensures Shaped(ToyTables())
  {
  }

  lemma ToyColumns()
    ensures forall s, t {:trigger HasColumn(ToyTables(), s, t)} :: 0 <= s <= MAX_SHIFT && 0 <= t < NTOKEN ==>
      (HasColumn(ToyTables(), s, t) <==> s == 0 && t == SEMI)
  {
  }

  lemma ToyPushes()
    ensures PushOk(Toy(), ToyKnown(), 0, SEMI, MIN_REDUCE)
    ensures Shaped(ToyTables()) && GotoOk(ToyTables(), Toy(), ToyKnown(), 0, INPUT)
    ensures ReduceOk(ToyTables(), Toy(), ToyKnown(), MIN_REDUCE, 0)
  {
    ToyShaped();
    hide Shaped;
    assert GotoOk(ToyTables(), Toy(), ToyKnown(), 0, INPUT);
  }

  lemma ToyFits()
    ensures Fits(ToyTables(), Toy(), ToyKnown())
  {
    ToyPushes();
    ToyColumns();
    hide Shaped, HasColumn, PushOk, ReduceOk;
  }

  lemma ToyRules()
    ensures var fg := Plain(ToyTables(), Toy());
      (forall f :: 0 <= f < |fg.rules| ==> RuleOk(Toy(), fg.rules[f])) && Numbered(fg)
      && fg.start == INPUT && |fg.rules| == NRULE && fg.rules[0] == Fine(0, INPUT, [PartsOf(ToyTables(), {SEMI})])
      && forall f :: 0 < f < NRULE ==> fg.rules[f].kind == UNUSED
  {
    var tb, fg := ToyTables(), Plain(ToyTables(), Toy());
    forall f | 0 <= f < |fg.rules|
      ensures RuleOk(Toy(), fg.rules[f])
    {
      assert fg.rules[f] == Fine(f, Toy().lhs[f], PlainBody(tb, Toy().rhs[f]));
    }
    assert PlainBody(tb, Toy().rhs[0]) == [PartsOf(tb, {SEMI})];
  }

  lemma ToyStarts()
    ensures Shaped(ToyTables()) && Numbered(Plain(ToyTables(), Toy()))
    ensures StartOk(ToyTables(), Plain(ToyTables(), Toy()), ToyItems())
  {
    ToyShaped();
    ToyRules();
    hide Plain, Shaped;
  }

  lemma ToyItemsOk(s: nat, i: Item)
    requires At(ToyItems(), s, i)
    ensures Shaped(ToyTables()) && Numbered(Plain(ToyTables(), Toy()))
    ensures ItemOk(ToyTables(), Plain(ToyTables(), Toy()), ToyItems(), s, i)
  {
    ToyShaped();
    ToyRules();
    ToyColumns();
    hide Plain, Shaped, Next;
    assert (s == 0 && i == Item(0, 0, 0)) || (s == MIN_REDUCE && i == Item(0, 1, 0));
  }

  lemma ToyCovers()
    ensures Covers(ToyTables(), Toy(), Plain(ToyTables(), Toy()), ToyItems())
  {
    ToyRules();
    ToyStarts();
    hide Plain, Shaped, StartOk, ItemOk, At, RuleOk;
    forall s, i | At(ToyItems(), s, i)
      ensures ItemOk(ToyTables(), Plain(ToyTables(), Toy()), ToyItems(), s, i)
    {
      ToyItemsOk(s, i);
    }
  }

  lemma ToyMeant(t: Tree)
    requires t == Node(0, [Leaf(SEMI, SEMI)])
    ensures Meant(Plain(ToyTables(), Toy()), t, [SEMI]) && Size(t) == 2 && Depth(t) == 1
  {
    var tb, fg, kids := ToyTables(), Plain(ToyTables(), Toy()), [Leaf(SEMI, SEMI)];
    ToyRules();
    hide Plain;
    assert kids[..0] == [] && t.kids == kids;
    assert Readable(tb, SEMI, SEMI) && Word(SEMI, SEMI) in PartsOf(tb, {SEMI});
    assert PartOf(fg, kids[0]) in fg.rules[0].body[0] && FineDerivation(fg, kids[0]);
    assert YieldAll(kids) == YieldAll(kids[..0]) + Yield(kids[0]) == [SEMI];
    assert SizeAll(kids) == SizeAll(kids[..0]) + Size(kids[0]) == 1;
    assert DepthAll(kids) == Max(DepthAll(kids[..0]), 0 + Depth(kids[0])) == 1;
  }

  /** So the semicolon is accepted. */
  method ParseSemicolon() returns (out: Outcome, n: nat)
    ensures out == Accepted && n == 1
  {
    ToyFits();
    ToyCovers();
    ghost var t := Node(0, [Leaf(SEMI, SEMI)]);
    ToyMeant(t);
    hide Fits, Covers, Meant, Size, Depth, Plain;
    out, n := E.Parse(ToyTables(), Toy(), ToyKnown(), [SEMI], 3);
    assert Covers(ToyTables(), Toy(), Plain(ToyTables(), Toy()), ToyItems());
    assert Meant(Plain(ToyTables(), Toy()), t, [SEMI]) && 3 > Size(t);
  }
}
