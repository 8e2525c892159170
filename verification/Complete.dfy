/** sqlite3_complete: a token scanner driving an automaton of eight states. Strings are the text of C
    strings, without the terminator; ids are the characters that IdChar accepts. */
module Complete {
  import opened Names

  datatype Token = SEMI | WS | OTHER | EXPLAIN | CREATE | TEMP | TRIGGER | END

  const INVALID := 0
  const START := 1
  const NORMAL := 2
  const EXPLAINING := 3
  const CREATING := 4
  const IN_TRIGGER := 5
  const SEEN_SEMI := 6
  const SEEN_END := 7

  /** The table trans[][]. */
  function Trans(state: nat, token: Token): (next: nat)
    requires state <= SEEN_END
    ensures next <= SEEN_END
  {
    if token == WS then state
    else if state == INVALID || state == START then
      if token == SEMI then START else if token == EXPLAIN then EXPLAINING
      else if token == CREATE then CREATING else NORMAL
    else if state == NORMAL then
      if token == SEMI then START else NORMAL
    else if state == EXPLAINING then
      if token == SEMI then START else if token == OTHER then EXPLAINING
      else if token == CREATE then CREATING else NORMAL
    else if state == CREATING then
      if token == SEMI then START else if token == TEMP then CREATING
      else if token == TRIGGER then IN_TRIGGER else NORMAL
    else if state == IN_TRIGGER then
      if token == SEMI then SEEN_SEMI else IN_TRIGGER
    else if state == SEEN_SEMI then
      if token == SEMI then SEEN_SEMI else if token == END then SEEN_END else IN_TRIGGER
    else
      if token == SEMI then START else IN_TRIGGER
  }

  // ---------------------------------------------------------------- scanning

  /** The next token and where it ends; or the text ends inside a token, which makes it incomplete;
      or it ends inside a "--" comment. */
  datatype Lexeme = Next(token: Token, end: nat) | Broken | InComment

  function SkipTo(s: string, i: nat, c: char): (j: nat)
    requires i <= |s|
    ensures i <= j <= |s| && (j < |s| ==> s[j] == c)
    decreases |s| - i
  {
    if i < |s| && s[i] != c then SkipTo(s, i + 1, c) else i
  }

  /** Where the closing star and slash of a comment stand. */
  function CommentEnd(s: string, i: nat): (j: nat)
    requires i <= |s|
    ensures i <= j <= |s| && (j < |s| ==> j + 1 < |s|)
    decreases |s| - i
  {
    if i < |s| && !(s[i] == '*' && i + 1 < |s| && s[i + 1] == '/') then CommentEnd(s, i + 1) else i
  }

  function IdEnd(s: string, i: nat, ids: set<char>): (j: nat)
    requires i <= |s|
    ensures i <= j <= |s|
    decreases |s| - i
  {
    if i < |s| && s[i] in ids then IdEnd(s, i + 1, ids) else i
  }

  predicate IsSpace(c: char) {
    c in {' ', '\r', '\t', '\n', '\U{000C}'}
  }

  predicate IsQuote(c: char) {
    c in {'`', '"', '\''}
  }

  function InLower(s: string): (r: string)
    ensures |r| == |s|
  {
    seq(|s|, i requires 0 <= i < |s| => Lower(s[i]))
  }

  /** The token a word stands for. */
  function Word(w: string): (r: Token)
    ensures r != SEMI && r != WS
  {
    var l := InLower(w);
    if l == "create" then CREATE
    else if l == "trigger" then TRIGGER
    else if l == "temp" || l == "temporary" then TEMP
    else if l == "end" then END
    else if l == "explain" then EXPLAIN
    else OTHER
  }

  function Lex(s: string, i: nat, ids: set<char>): (l: Lexeme)
    requires i < |s|
    ensures l.Next? ==> i < l.end <= |s|
  {
    var c := s[i];
    if c == ';' then Next(SEMI, i + 1)
    else if IsSpace(c) then Next(WS, i + 1)
    else if c == '/' && i + 1 < |s| && s[i + 1] == '*' then
      var j := CommentEnd(s, i + 2);
      if j < |s| then Next(WS, j + 2) else Broken
    else if c == '-' && i + 1 < |s| && s[i + 1] == '-' then
      var j := SkipTo(s, i, '\n');
      if j < |s| then Next(WS, j + 1) else InComment
    else if c == '[' || IsQuote(c) then
      var j := SkipTo(s, i + 1, if c == '[' then ']' else c);
      if j < |s| then Next(OTHER, j + 1) else Broken
    else if c != '/' && c != '-' && c in ids then
      var j := IdEnd(s, i + 1, ids);
      Next(Word(s[i..j]), j)
    else Next(OTHER, i + 1)
  }

  /** The tokens from i on, and whether the text ends between tokens or in a "--" comment. */
  function Scan(s: string, i: nat, ids: set<char>): (seq<Token>, bool)
    requires i <= |s|
    decreases |s| - i
  {
    if i == |s| then ([], true)
    else match Lex(s, i, ids)
      case Broken => ([], false)
      case InComment => ([], true)
      case Next(token, end) => var (rest, ok) := Scan(s, end, ids); ([token] + rest, ok)
  }

  function Drive(state: nat, tokens: seq<Token>): (r: nat)
    requires state <= SEEN_END
    ensures r <= SEEN_END
    decreases tokens
  {
    if tokens == [] then state else Drive(Trans(state, tokens[0]), tokens[1..])
  }

  ghost predicate IsComplete(s: string, ids: set<char>) {
    var (tokens, ok) := Scan(s, 0, ids);
    ok && Drive(INVALID, tokens) == START
  }

  // ---------------------------------------------------------------- the function

  method SkipToMethod(s: string, i: nat, c: char) returns (j: nat)
    requires i <= |s|
    ensures j == SkipTo(s, i, c)
  {
    j := i;
    while j < |s| && s[j] != c
      invariant i <= j <= |s| && SkipTo(s, j, c) == SkipTo(s, i, c)
    {
      j := j + 1;
    }
  }

  method NextToken(s: string, i: nat, ids: set<char>) returns (l: Lexeme)
    requires i < |s|
    ensures l == Lex(s, i, ids)
  {
    var c := s[i];
    if c == ';' {
      l := Next(SEMI, i + 1);
    } else if IsSpace(c) {
      l := Next(WS, i + 1);
    } else if c == '/' {
      if !(i + 1 < |s| && s[i + 1] == '*') {
        return Next(OTHER, i + 1);
      }
      var z := i + 2;
      while z < |s| && (s[z] != '*' || !(z + 1 < |s| && s[z + 1] == '/'))
        invariant i + 2 <= z <= |s| && CommentEnd(s, z) == CommentEnd(s, i + 2)
      {
        z := z + 1;
      }
      l := if z == |s| then Broken else Next(WS, z + 2);
    } else if c == '-' {
      if !(i + 1 < |s| && s[i + 1] == '-') {
        return Next(OTHER, i + 1);
      }
      var z := SkipToMethod(s, i, '\n');
      l := if z == |s| then InComment else Next(WS, z + 1);
    } else if c == '[' {
      var z := SkipToMethod(s, i + 1, ']');
      l := if z == |s| then Broken else Next(OTHER, z + 1);
    } else if IsQuote(c) {
      var z := SkipToMethod(s, i + 1, c);
      l := if z == |s| then Broken else Next(OTHER, z + 1);
    } else if c in ids {
      var nId := 1;
      while i + nId < |s| && s[i + nId] in ids
        invariant 1 <= nId <= |s| - i && IdEnd(s, i + nId, ids) == IdEnd(s, i + 1, ids)
      {
        nId := nId + 1;
      }
      var token := Keyword(s[i..i + nId]);
      l := Next(token, i + nId);
    } else {
      l := Next(OTHER, i + 1);
    }
  }

  /** The switch on the first letter of a word. */
  method Keyword(w: string) returns (token: Token)
    requires |w| > 0
    ensures token == Word(w)
  {
    var n := |w|;
    FirstLetter(w);
    match w[0]
    case 'c' | 'C' => token := if n == 6 && InLower(w) == "create" then CREATE else OTHER;
    case 't' | 'T' =>
      token := if n == 7 && InLower(w) == "trigger" then TRIGGER
      else if n == 4 && InLower(w) == "temp" then TEMP
      else if n == 9 && InLower(w) == "temporary" then TEMP
      else OTHER;
    case 'e' | 'E' =>
      token := if n == 3 && InLower(w) == "end" then END
      else if n == 7 && InLower(w) == "explain" then EXPLAIN
      else OTHER;
    case _ => token := OTHER;
  }

  /** Each keyword has its own first letter. */
  lemma FirstLetter(w: string)
    requires |w| > 0
    ensures Word(w) == CREATE ==> w[0] in {'c', 'C'}
    ensures Word(w) in {TRIGGER, TEMP} ==> w[0] in {'t', 'T'}
    ensures Word(w) in {END, EXPLAIN} ==> w[0] in {'e', 'E'}
  {
    assert InLower(w)[0] == Lower(w[0]);
  }

  /** sqlite3_complete */
  method SqliteComplete(zSql: string, ids: set<char>) returns (r: bool)
    ensures r <==> IsComplete(zSql, ids)
  {
    var state: nat := 0;
    var i: nat := 0;
    ghost var seen: seq<Token> := [];
    DriveNone(INVALID);
    AheadAtStart(zSql, ids);
    hide *;
    while i < |zSql|
      invariant i <= |zSql| && state <= SEEN_END && state == Drive(INVALID, seen)
      invariant Ahead(zSql, i, ids, seen)
      decreases |zSql| - i
    {
      var l := NextToken(zSql, i, ids);
      AheadOn(zSql, i, ids, seen);
      match l
      case Broken => return false;
      case InComment => return state == START;
      case Next(token, end) =>
        DriveOn(INVALID, seen, token);
        seen := seen + [token];
        state := Trans(state, token);
        i := end;
    }
    AheadAtEnd(zSql, ids, seen);
    r := state == START;
  }

  /** seen are the tokens before i. */
  ghost predicate Ahead(s: string, i: nat, ids: set<char>, seen: seq<Token>) {
    i <= |s| && Scan(s, 0, ids) == (seen + Scan(s, i, ids).0, Scan(s, i, ids).1)
  }

  lemma AheadAtStart(s: string, ids: set<char>)
    ensures Ahead(s, 0, ids, [])
  {
    assert [] + Scan(s, 0, ids).0 == Scan(s, 0, ids).0;
  }

  lemma AheadAtEnd(s: string, ids: set<char>, seen: seq<Token>)
    requires Ahead(s, |s|, ids, seen)
    ensures IsComplete(s, ids) <==> Drive(INVALID, seen) == START
  {
    assert seen + [] == seen;
  }

  lemma AheadOn(s: string, i: nat, ids: set<char>, seen: seq<Token>)
    requires i < |s| && Ahead(s, i, ids, seen)
    ensures Lex(s, i, ids).Broken? ==> !IsComplete(s, ids)
    ensures Lex(s, i, ids).InComment? ==> (IsComplete(s, ids) <==> Drive(INVALID, seen) == START)
    ensures Lex(s, i, ids).Next? ==> i < Lex(s, i, ids).end <= |s|
    ensures Lex(s, i, ids).Next? ==> Ahead(s, Lex(s, i, ids).end, ids, seen + [Lex(s, i, ids).token])
  {
    hide Trans;
    match Lex(s, i, ids)
    case Broken =>
    case InComment => assert seen + [] == seen;
    case Next(token, end) =>
      var rest := Scan(s, end, ids).0;
      assert seen + ([token] + rest) == (seen + [token]) + rest;
  }

  lemma DriveNone(state: nat)
    requires state <= SEEN_END
    ensures Drive(state, []) == state
  {
  }

  lemma DriveOn(state: nat, tokens: seq<Token>, token: Token)
    requires state <= SEEN_END
    ensures Drive(state, tokens + [token]) == Trans(Drive(state, tokens), token)
  {
    DriveJoin(state, tokens, [token]);
  }

  lemma {:induction false} DriveJoin(state: nat, a: seq<Token>, b: seq<Token>)
    requires state <= SEEN_END
    ensures Drive(state, a + b) == Drive(Drive(state, a), b)
    decreases a
  {
    if a == [] {
      assert a + b == b;
    } else {
      DriveJoin(Trans(state, a[0]), a[1..], b);
      assert (a + b)[1..] == a[1..] + b;
    }
  }

  // ---------------------------------------------------------------- leaving a trigger

  /** The tokens that matter. */
  function Solid(tokens: seq<Token>): (r: seq<Token>) {
    if tokens == [] then []
    else Solid(tokens[..|tokens| - 1]) + if tokens[|tokens| - 1] == WS then [] else [tokens[|tokens| - 1]]
  }

  predicate EndsWith(tokens: seq<Token>, tail: seq<Token>) {
    |tail| <= |tokens| && forall i :: 0 <= i < |tail| ==> tail[i] == tokens[|tokens| - |tail| + i]
  }

  lemma DriveLast(state: nat, tokens: seq<Token>)
    requires state <= SEEN_END && tokens != []
    ensures Drive(state, tokens) == Trans(Drive(state, tokens[..|tokens| - 1]), tokens[|tokens| - 1])
  {
    var n := |tokens| - 1;
    DriveJoin(state, tokens[..n], tokens[n..]);
    assert tokens == tokens[..n] + tokens[n..];
  }

  /** How far "; END ;" has come. */
  function Progress(f: seq<Token>): nat {
    if EndsWith(f, [SEMI, END]) then SEEN_END else if EndsWith(f, [SEMI]) then SEEN_SEMI else IN_TRIGGER
  }

  lemma ProgressStep(f: seq<Token>, last: Token)
    requires last != WS
    ensures Trans(Progress(f), last) == if EndsWith(f + [last], [SEMI, END, SEMI]) then START else Progress(f + [last])
  {
    LastTwo(f, last);
    hide EndsWith;
  }

  lemma LastTwo(f: seq<Token>, last: Token)
    ensures EndsWith(f + [last], [SEMI]) <==> last == SEMI
    ensures EndsWith(f + [last], [SEMI, END]) <==> last == END && EndsWith(f, [SEMI])
    ensures EndsWith(f + [last], [SEMI, END, SEMI]) <==> last == SEMI && EndsWith(f, [SEMI, END])
    ensures EndsWith(f, [SEMI, END]) ==> !EndsWith(f, [SEMI])
  {
    var g, one, two, three := f + [last], [SEMI], [SEMI, END], [SEMI, END, SEMI];
    assert one[0] == SEMI && two[0] == SEMI && two[1] == END && three[0] == SEMI && three[1] == END && three[2] == SEMI;
  }

  /** A trigger definition is under way and has not come to its end. */
  ghost predicate StillInside(tokens: seq<Token>) {
    forall k {:trigger tokens[..k]} :: 0 <= k <= |tokens| ==> Drive(IN_TRIGGER, tokens[..k]) != START
  }

  lemma InsideBefore(tokens: seq<Token>)
    requires StillInside(tokens) && tokens != []
    ensures StillInside(tokens[..|tokens| - 1]) && Drive(IN_TRIGGER, tokens) != START
  {
    var before := tokens[..|tokens| - 1];
    forall k {:trigger before[..k]} | 0 <= k <= |before|
      ensures Drive(IN_TRIGGER, before[..k]) != START
    {
      assert before[..k] == tokens[..k];
    }
    assert tokens[..|tokens|] == tokens;
  }

  /** Inside a trigger the state says exactly how far "; END ;" has come, and that alone. */
  lemma {:induction false} TriggerState(tokens: seq<Token>)
    requires StillInside(tokens)
    ensures Drive(IN_TRIGGER, tokens) == Progress(Solid(tokens))
    decreases tokens
  {
    if tokens != [] {
      var before, last := tokens[..|tokens| - 1], tokens[|tokens| - 1];
      InsideBefore(tokens);
      TriggerState(before);
      DriveLast(IN_TRIGGER, tokens);
      hide Drive, Progress, EndsWith, StillInside;
      if last != WS {
        ProgressStep(Solid(before), last);
      } else {
        assert Solid(before) + [] == Solid(before);
      }
    }
  }

  /** The first return from a trigger to START is at the token that completes "; END ;", white space
      and comments aside, and at no other. */
  lemma LeavesTriggerOnlyAtEnd(tokens: seq<Token>, last: Token)
    requires StillInside(tokens)
    ensures Drive(IN_TRIGGER, tokens + [last]) == START <==>
      last != WS && EndsWith(Solid(tokens) + [last], [SEMI, END, SEMI])
    ensures Drive(IN_TRIGGER, tokens + [last]) in {START, IN_TRIGGER, SEEN_SEMI, SEEN_END}
  {
    TriggerState(tokens);
    DriveLast(IN_TRIGGER, tokens + [last]);
    assert (tokens + [last])[..|tokens|] == tokens;
    hide Drive, EndsWith, Solid, StillInside;
    if last != WS {
      ProgressStep(Solid(tokens), last);
    }
  }

  /** "; END ;" comes to its end with the first m tokens. */
  ghost predicate EndBy(tokens: seq<Token>, m: nat) {
    0 < m <= |tokens| && EndsWith(Solid(tokens[..m]), [SEMI, END, SEMI])
  }

  lemma EndByPrefix(tokens: seq<Token>, k: nat, m: nat)
    requires k <= |tokens| && EndBy(tokens[..k], m)
    ensures EndBy(tokens, m)
  {
    assert tokens[..k][..m] == tokens[..m];
  }

  lemma EndNow(tokens: seq<Token>)
    requires tokens != [] && StillInside(tokens[..|tokens| - 1]) && Drive(IN_TRIGGER, tokens) == START
    ensures EndBy(tokens, |tokens|)
  {
    var n := |tokens| - 1;
    assert tokens == tokens[..n] + [tokens[n]] == tokens[..n + 1];
    LeavesTriggerOnlyAtEnd(tokens[..n], tokens[n]);
  }

  lemma LeftBefore(tokens: seq<Token>) returns (k: nat)
    requires tokens != [] && !StillInside(tokens[..|tokens| - 1])
    ensures k < |tokens| && Drive(IN_TRIGGER, tokens[..k]) == START
  {
    var before := tokens[..|tokens| - 1];
    k :| 0 <= k <= |before| && Drive(IN_TRIGGER, before[..k]) == START;
    assert before[..k] == tokens[..k];
  }

  /** So a text that enters a trigger definition is complete only if "; END ;" follows. */
  lemma {:induction false} TriggerNeedsEnd(tokens: seq<Token>) returns (m: nat)
    requires Drive(IN_TRIGGER, tokens) == START
    ensures EndBy(tokens, m)
    decreases |tokens|
  {
    DriveNone(IN_TRIGGER);
    assert tokens != [];
    hide Drive, StillInside, EndBy;
    if StillInside(tokens[..|tokens| - 1]) {
      EndNow(tokens);
      m := |tokens|;
    } else {
      var k := LeftBefore(tokens);
      m := TriggerNeedsEnd(tokens[..k]);
      EndByPrefix(tokens, k, m);
    }
  }

  /** For every text: if some of its tokens lead into a trigger definition and it is complete, then
      "; END ;" comes after them. */
  lemma CompleteTrigger(s: string, ids: set<char>, k: nat)
    requires IsComplete(s, ids) && k <= |Scan(s, 0, ids).0| && Drive(INVALID, Scan(s, 0, ids).0[..k]) == IN_TRIGGER
    ensures exists m :: EndBy(Scan(s, 0, ids).0[k..], m)
  {
    var tokens := Scan(s, 0, ids).0;
    assert tokens == tokens[..k] + tokens[k..];
    DriveJoin(INVALID, tokens[..k], tokens[k..]);
    hide Drive, Scan, EndBy;
    var m := TriggerNeedsEnd(tokens[k..]);
  }

  // ---------------------------------------------------------------- outside triggers

  /** No trigger definition has begun. */
  ghost predicate Outside(tokens: seq<Token>) {
    forall k {:trigger tokens[..k]} :: 0 <= k <= |tokens| ==> Drive(INVALID, tokens[..k]) != IN_TRIGGER
  }

  /** The tokens of the statement under way, those after the last semicolon. */
  function Statement(f: seq<Token>): seq<Token> {
    if f == [] || f[|f| - 1] == SEMI then [] else Statement(f[..|f| - 1]) + [f[|f| - 1]]
  }

  predicate All(f: seq<Token>, token: Token) {
    forall i :: 0 <= i < |f| ==> f[i] == token
  }

  /** EXPLAIN, and words that are not keywords, such as QUERY PLAN. */
  predicate IsExplain(f: seq<Token>) {
    f != [] && f[0] == EXPLAIN && All(f[1..], OTHER)
  }

  /** CREATE and any number of TEMPs, after EXPLAIN or at the start. */
  predicate IsCreate(f: seq<Token>) {
    exists k {:trigger f[..k]} ::
      0 <= k < |f| && (f[..k] == [] || IsExplain(f[..k])) && f[k] == CREATE && All(f[k + 1..], TEMP)
  }

  /** What the state says about the statement under way, outside a trigger. */
  function StatementState(f: seq<Token>): (r: nat)
    ensures r == START || r == NORMAL || r == EXPLAINING || r == CREATING
  {
    if f == [] then START else if IsExplain(f) then EXPLAINING else if IsCreate(f) then CREATING else NORMAL
  }

  lemma AllOn(f: seq<Token>, last: Token, token: Token)
    ensures All(f + [last], token) <==> All(f, token) && last == token
  {
    assert (f + [last])[|f|] == last && forall i :: 0 <= i < |f| ==> (f + [last])[i] == f[i];
  }

  lemma ExplainOn(f: seq<Token>, last: Token)
    ensures IsExplain(f + [last]) <==> (f == [] && last == EXPLAIN) || (IsExplain(f) && last == OTHER)
  {
    var g := f + [last];
    if f != [] {
      assert g[1..] == f[1..] + [last];
      AllOn(f[1..], last, OTHER);
    }
  }

  lemma CreateOn(f: seq<Token>, last: Token)
    ensures IsCreate(f + [last]) <==> (last == CREATE && (f == [] || IsExplain(f))) || (last == TEMP && IsCreate(f))
  {
    var g := f + [last];
    hide IsExplain;
    forall k | 0 <= k < |f|
      ensures g[..k] == f[..k] && g[k] == f[k]
      ensures All(g[k + 1..], TEMP) <==> last == TEMP && All(f[k + 1..], TEMP)
    {
      assert g[k + 1..] == f[k + 1..] + [last];
      AllOn(f[k + 1..], last, TEMP);
    }
    assert g[..|f|] == f && g[|f| + 1..] == [];
    if IsCreate(f) && last == TEMP {
      var k :| 0 <= k < |f| && (f[..k] == [] || IsExplain(f[..k])) && f[k] == CREATE && All(f[k + 1..], TEMP);
      assert g[..k] == f[..k];
    }
  }

  lemma NotBoth(f: seq<Token>)
    ensures !(IsExplain(f) && IsCreate(f)) && !IsExplain([]) && !IsCreate([])
  {
  }

  lemma StatementOn(f: seq<Token>, last: Token)
    ensures Statement(f + [last]) == if last == SEMI then [] else Statement(f) + [last]
  {
    assert (f + [last])[..|f|] == f;
  }

  lemma StatementStep(f: seq<Token>, last: Token)
    requires last != WS
    ensures Trans(StatementState(f), last) ==
      if last == TRIGGER && IsCreate(f) then IN_TRIGGER else if last == SEMI then START else StatementState(f + [last])
  {
    ExplainOn(f, last);
    CreateOn(f, last);
    NotBoth(f);
    hide IsExplain, IsCreate;
  }

  /** Outside triggers the state says what kind of statement is under way, and nothing else. */
  lemma {:induction false} OutsideState(tokens: seq<Token>)
    requires Outside(tokens)
    ensures Drive(INVALID, tokens) == if Solid(tokens) == [] then INVALID else StatementState(Statement(Solid(tokens)))
    decreases tokens
  {
    if tokens != [] {
      var before, last := tokens[..|tokens| - 1], tokens[|tokens| - 1];
      OutsideBefore(tokens);
      OutsideState(before);
      DriveLast(INVALID, tokens);
      OutsideStep(before, last);
      assert Solid(before) + [] == Solid(before);
      assert tokens[..|tokens|] == tokens;
    }
  }

  lemma OutsideBefore(tokens: seq<Token>)
    requires Outside(tokens) && tokens != []
    ensures Outside(tokens[..|tokens| - 1]) && Drive(INVALID, tokens) != IN_TRIGGER
  {
    var before := tokens[..|tokens| - 1];
    forall k {:trigger before[..k]} | 0 <= k <= |before|
      ensures Drive(INVALID, before[..k]) != IN_TRIGGER
    {
      assert before[..k] == tokens[..k];
    }
    assert tokens[..|tokens|] == tokens;
  }

  lemma OutsideStep(before: seq<Token>, last: Token)
    requires Drive(INVALID, before) == if Solid(before) == [] then INVALID else StatementState(Statement(Solid(before)))
    ensures last != WS ==>
      Trans(Drive(INVALID, before), last)
      == (if last == TRIGGER && IsCreate(Statement(Solid(before))) then IN_TRIGGER
          else StatementState(Statement(Solid(before) + [last])))
  {
    hide IsExplain, IsCreate, Drive;
    if last != WS {
      StatementOn(Solid(before), last);
      StatementStep(Statement(Solid(before)), last);
    }
  }

  /** A trigger definition begins exactly with CREATE TRIGGER or CREATE TEMP TRIGGER at the start of a
      statement, EXPLAIN in front or not. */
  lemma TriggerBegins(tokens: seq<Token>, last: Token)
    requires Outside(tokens)
    ensures Drive(INVALID, tokens + [last]) == IN_TRIGGER <==> last == TRIGGER && IsCreate(Statement(Solid(tokens)))
  {
    hide IsExplain, IsCreate, Drive, Outside, Solid, Statement, EndsWith;
    OutsideState(tokens);
    DriveOn(INVALID, tokens, last);
    if last != WS {
      OutsideStep(tokens, last);
    }
  }

  /** The documented rule: a text without trigger definitions is complete exactly when it does not
      end inside a string, a bracketed name or a comment of the other kind, and its last token, white
      space and comments aside, is a semicolon. */
  lemma CompleteWithoutTriggers(s: string, ids: set<char>)
    requires Outside(Scan(s, 0, ids).0)
    ensures IsComplete(s, ids) <==> Scan(s, 0, ids).1 && EndsWith(Solid(Scan(s, 0, ids).0), [SEMI])
  {
    var tokens := Scan(s, 0, ids).0;
    OutsideState(tokens);
    StatementEmpty(Solid(tokens));
    hide Drive, Scan, Outside, IsExplain, IsCreate;
  }

  lemma StatementEmpty(f: seq<Token>)
    ensures f != [] && Statement(f) == [] <==> EndsWith(f, [SEMI])
  {
    var semi := [SEMI];
    assert semi[0] == SEMI;
  }

  // ---------------------------------------------------------------- joining complete texts

  lemma {:induction false} SkipJoin(s: string, t: string, i: nat, c: char)
    requires i <= |s| && SkipTo(s, i, c) < |s|
    ensures SkipTo(s + t, i, c) == SkipTo(s, i, c)
    decreases |s| - i
  {
    if i < |s| && s[i] != c {
      SkipJoin(s, t, i + 1, c);
    }
  }

  lemma {:induction false} SkipPast(s: string, t: string, i: nat, c: char)
    requires i <= |s| && SkipTo(s, i, c) == |s| && t != "" && t[0] == c
    ensures SkipTo(s + t, i, c) == |s|
    decreases |s| - i
  {
    if i < |s| {
      SkipPast(s, t, i + 1, c);
    }
  }

  lemma {:induction false} CommentJoin(s: string, t: string, i: nat)
    requires i <= |s| && CommentEnd(s, i) < |s|
    ensures CommentEnd(s + t, i) == CommentEnd(s, i)
    decreases |s| - i
  {
    if i < |s| && !(s[i] == '*' && i + 1 < |s| && s[i + 1] == '/') {
      CommentJoin(s, t, i + 1);
    }
  }

  lemma {:induction false} IdJoin(s: string, t: string, i: nat, ids: set<char>)
    requires i <= |s| && (t == "" || t[0] !in ids)
    ensures IdEnd(s + t, i, ids) == IdEnd(s, i, ids)
    decreases |s| - i
  {
    if i < |s| && s[i] in ids {
      IdJoin(s, t, i + 1, ids);
    }
  }

  /** A line end after the text changes no token of it. */
  lemma LexJoin(s: string, t: string, i: nat, ids: set<char>)
    requires i < |s| && t != "" && t[0] == '\n' && '\n' !in ids && Lex(s, i, ids).Next?
    ensures Lex(s + t, i, ids) == Lex(s, i, ids)
  {
    hide SkipTo, CommentEnd, IdEnd, Word;
    var c := s[i];
    assert (s + t)[i] == c;
    if c == '/' && i + 1 < |s| && s[i + 1] == '*' {
      CommentJoin(s, t, i + 2);
    } else if c == '-' && i + 1 < |s| && s[i + 1] == '-' {
      SkipJoin(s, t, i, '\n');
    } else if c == '[' || IsQuote(c) {
      SkipJoin(s, t, i + 1, if c == '[' then ']' else c);
    } else if c != ';' && !IsSpace(c) && c != '/' && c != '-' && c in ids {
      IdJoin(s, t, i + 1, ids);
      var j := IdEnd(s, i + 1, ids);
      assert (s + t)[i..j] == s[i..j];
    }
  }

  /** A "--" comment that runs to the end of the text takes the line end with it. */
  lemma LexJoinComment(s: string, t: string, i: nat, ids: set<char>)
    requires i < |s| && t != "" && t[0] == '\n' && Lex(s, i, ids).InComment?
    ensures Lex(s + t, i, ids) == Next(WS, |s| + 1)
  {
    assert (s + t)[i] == '-' && (s + t)[i + 1] == '-';
    SkipPast(s, t, i, '\n');
  }

  lemma LexLineEnd(u: string, i: nat, ids: set<char>)
    requires i < |u| && u[i] == '\n'
    ensures Lex(u, i, ids) == Next(WS, i + 1)
  {
  }

  lemma Regroup(token: Token, a: seq<Token>, b: seq<Token>)
    ensures [token] + (a + [WS] + b) == ([token] + a) + [WS] + b
  {
  }

  /** The tokens of two texts joined by a line end, which itself counts as white space whether or not
      it closes a comment. */
  lemma {:induction false} ScanJoin(s: string, t: string, i: nat, ids: set<char>)
    requires i <= |s| && '\n' !in ids && Scan(s, i, ids).1
    ensures |s + "\n" + t| == |s| + 1 + |t|
    ensures Scan(s + "\n" + t, i, ids) == (Scan(s, i, ids).0 + [WS] + Scan(t, 0, ids).0, Scan(t, 0, ids).1)
    decreases |s| - i
  {
    hide Lex;
    var u := s + "\n" + t;
    var rest := "\n" + t;
    assert u == s + rest;
    ScanShift(s + "\n", t, 0, ids);
    if i == |s| {
      LexLineEnd(u, i, ids);
    } else {
      match Lex(s, i, ids)
      case Broken =>
      case InComment =>
        LexJoinComment(s, rest, i, ids);
        assert Scan(s, i, ids) == ([], true) && [] + [WS] == [WS];
        assert Scan(u, i, ids) == ([WS] + Scan(t, 0, ids).0, Scan(t, 0, ids).1);
      case Next(token, end) =>
        LexJoin(s, rest, i, ids);
        ScanJoin(s, t, end, ids);
        Regroup(token, Scan(s, end, ids).0, Scan(t, 0, ids).0);
        assert Scan(s, i, ids).0 == [token] + Scan(s, end, ids).0;
        assert Scan(u, i, ids) == ([token] + Scan(u, end, ids).0, Scan(t, 0, ids).1);
    }
  }

  lemma {:induction false} ScanShift(a: string, t: string, i: nat, ids: set<char>)
    requires i <= |t|
    ensures |a + t| == |a| + |t|
    ensures Scan(a + t, |a| + i, ids) == Scan(t, i, ids)
    decreases |t| - i
  {
    if i < |t| {
      LexShift(a, t, i, ids);
      match Lex(t, i, ids)
      case Broken =>
      case InComment =>
      case Next(_, end) => ScanShift(a, t, end, ids);
    }
  }

  function Shifted(l: Lexeme, n: nat): Lexeme {
    match l
    case Next(token, end) => Next(token, n + end)
    case _ => l
  }

  lemma LexShift(a: string, t: string, i: nat, ids: set<char>)
    requires i < |t|
    ensures |a| + i < |a + t| && Lex(a + t, |a| + i, ids) == Shifted(Lex(t, i, ids), |a|)
  {
    hide SkipTo, CommentEnd, IdEnd, Word;
    var c := t[i];
    assert (a + t)[|a| + i] == c;
    if c == '/' && i + 1 < |t| && t[i + 1] == '*' {
      CommentShift(a, t, i + 2);
    } else if c == '-' && i + 1 < |t| && t[i + 1] == '-' {
      SkipShift(a, t, i, '\n');
    } else if c == '[' || IsQuote(c) {
      SkipShift(a, t, i + 1, if c == '[' then ']' else c);
    } else if c in ids {
      IdShift(a, t, i + 1, ids);
      var j := IdEnd(t, i + 1, ids);
      assert (a + t)[|a| + i..|a| + j] == t[i..j];
    }
  }

  lemma {:induction false} SkipShift(a: string, t: string, i: nat, c: char)
    requires i <= |t|
    ensures |a| + i <= |a + t| && SkipTo(a + t, |a| + i, c) == |a| + SkipTo(t, i, c)
    decreases |t| - i
  {
    if i < |t| && t[i] != c {
      SkipShift(a, t, i + 1, c);
    }
  }

  lemma {:induction false} CommentShift(a: string, t: string, i: nat)
    requires i <= |t|
    ensures |a| + i <= |a + t| && CommentEnd(a + t, |a| + i) == |a| + CommentEnd(t, i)
    decreases |t| - i
  {
    if i < |t| && !(t[i] == '*' && i + 1 < |t| && t[i + 1] == '/') {
      CommentShift(a, t, i + 1);
    }
  }

  lemma {:induction false} IdShift(a: string, t: string, i: nat, ids: set<char>)
    requires i <= |t|
    ensures |a| + i <= |a + t| && IdEnd(a + t, |a| + i, ids) == |a| + IdEnd(t, i, ids)
    decreases |t| - i
  {
    if i < |t| && t[i] in ids {
      IdShift(a, t, i + 1, ids);
    }
  }

  /** What is complete by itself is complete after another statement. */
  lemma {:induction false} StartIsAsGood(tokens: seq<Token>)
    requires Drive(INVALID, tokens) == START
    ensures Drive(START, tokens) == START
    decreases tokens
  {
    if tokens != [] && tokens[0] == WS {
      StartIsAsGood(tokens[1..]);
    }
  }

  /** Two complete texts, the second on a new line, are complete together. */
  lemma CompleteTogether(s: string, t: string, ids: set<char>)
    requires '\n' !in ids && IsComplete(s, ids) && IsComplete(t, ids)
    ensures IsComplete(s + "\n" + t, ids)
  {
    ScanJoin(s, t, 0, ids);
    var a, b := Scan(s, 0, ids).0, Scan(t, 0, ids).0;
    DriveJoin(INVALID, a + [WS], b);
    DriveOn(INVALID, a, WS);
    StartIsAsGood(b);
  }

  /** Conversely, once the first text is complete, the two are complete together exactly when the
      second is or says nothing: white space and comments only. */
  lemma CompleteTogetherExactly(s: string, t: string, ids: set<char>)
    requires '\n' !in ids && IsComplete(s, ids)
    ensures IsComplete(s + "\n" + t, ids) <==>
      IsComplete(t, ids) || (Scan(t, 0, ids).1 && Solid(Scan(t, 0, ids).0) == [])
  {
    ScanJoin(s, t, 0, ids);
    var a, b := Scan(s, 0, ids).0, Scan(t, 0, ids).0;
    DriveJoin(INVALID, a + [WS], b);
    DriveOn(INVALID, a, WS);
    StartOrNothing(b);
  }

  lemma {:induction false} StartOrNothing(tokens: seq<Token>)
    ensures Drive(START, tokens) == START <==> Drive(INVALID, tokens) == START || Solid(tokens) == []
    decreases tokens
  {
    if tokens != [] {
      SolidFirst(tokens);
      if tokens[0] == WS {
        StartOrNothing(tokens[1..]);
      }
    }
  }

  lemma {:induction false} SolidFirst(tokens: seq<Token>)
    requires tokens != []
    ensures Solid(tokens) == (if tokens[0] == WS then [] else [tokens[0]]) + Solid(tokens[1..])
    decreases tokens
  {
    var n := |tokens| - 1;
    if n > 0 {
      SolidFirst(tokens[..n]);
      assert tokens[..n][1..] == tokens[1..][..n - 1];
    }
  }

  // ---------------------------------------------------------------- joining without a line end

  /** The scan from i on ends in a "--" comment. */
  predicate EndsInComment(s: string, i: nat, ids: set<char>)
    requires i <= |s|
    decreases |s| - i
  {
    i < |s| && match Lex(s, i, ids)
      case Broken => false
      case InComment => true
      case Next(_, end) => EndsInComment(s, end, ids)
  }

  /** The rest of t when it follows s directly: what comes after its first line end if s leaves a "--"
      comment open, and all of it otherwise. */
  function Following(s: string, t: string, ids: set<char>): string {
    if !EndsInComment(s, 0, ids) then t
    else var p := SkipTo(t, 0, '\n'); if p < |t| then t[p + 1..] else ""
  }

  /** A token that does not end the text, a semicolon and white space stay what they are. */
  lemma LexGoesOn(s: string, t: string, i: nat, ids: set<char>)
    requires i < |s| && Lex(s, i, ids).Next?
    requires Lex(s, i, ids).end < |s| || Lex(s, i, ids).token in {SEMI, WS}
    ensures i < |s + t| && Lex(s + t, i, ids) == Lex(s, i, ids)
  {
    hide SkipTo, CommentEnd, IdEnd, Word;
    var c := s[i];
    assert (s + t)[i] == c && (i + 1 < |s| ==> (s + t)[i + 1] == s[i + 1]);
    if c == ';' || IsSpace(c) {
    } else if c == '/' && i + 1 < |s| && s[i + 1] == '*' {
      CommentJoin(s, t, i + 2);
    } else if c == '-' && i + 1 < |s| && s[i + 1] == '-' {
      SkipJoin(s, t, i, '\n');
    } else if c == '[' || IsQuote(c) {
      SkipJoin(s, t, i + 1, if c == '[' then ']' else c);
    } else if c != '/' && c != '-' && c in ids {
      IdGoesOn(s, t, i + 1, ids);
      assert (s + t)[i..IdEnd(s, i + 1, ids)] == s[i..IdEnd(s, i + 1, ids)];
    }
  }

  lemma {:induction false} IdGoesOn(s: string, t: string, i: nat, ids: set<char>)
    requires i <= |s| && IdEnd(s, i, ids) < |s|
    ensures IdEnd(s + t, i, ids) == IdEnd(s, i, ids)
    decreases |s| - i
  {
    if s[i] in ids {
      IdGoesOn(s, t, i + 1, ids);
    }
  }

  lemma {:induction false} SkipOver(s: string, t: string, i: nat, c: char)
    requires i <= |s| && SkipTo(s, i, c) == |s|
    ensures |s| <= |s + t| && SkipTo(s + t, i, c) == |s| + SkipTo(t, 0, c)
    decreases |s| - i
  {
    if i < |s| {
      SkipOver(s, t, i + 1, c);
    } else {
      SkipShift(s, t, 0, c);
    }
  }

  /** The text ends with a token that nothing behind it can change. */
  predicate Firm(tokens: seq<Token>) {
    tokens == [] || tokens[|tokens| - 1] in {SEMI, WS}
  }

  /** The tokens of two texts one directly after the other, when the first ends firmly. */
  lemma {:induction false} ScanGoesOn(s: string, t: string, i: nat, ids: set<char>)
    requires i <= |s| && Scan(s, i, ids).1 && !EndsInComment(s, i, ids) && Firm(Scan(s, i, ids).0)
    ensures |s + t| == |s| + |t|
    ensures Scan(s + t, i, ids) == (Scan(s, i, ids).0 + Scan(t, 0, ids).0, Scan(t, 0, ids).1)
    decreases |s| - i
  {
    hide Lex;
    if i == |s| {
      ScanShift(s, t, 0, ids);
      assert [] + Scan(t, 0, ids).0 == Scan(t, 0, ids).0;
    } else {
      match Lex(s, i, ids)
      case Broken =>
      case InComment =>
      case Next(token, end) =>
        var rest := Scan(s, end, ids).0;
        assert Scan(s, i, ids).0 == [token] + rest;
        assert rest != [] ==> (([token] + rest)[|rest|] == rest[|rest| - 1]);
        LexGoesOn(s, t, i, ids);
        ScanGoesOn(s, t, end, ids);
        assert [token] + (rest + Scan(t, 0, ids).0) == ([token] + rest) + Scan(t, 0, ids).0;
    }
  }

  /** The tokens of two texts when the first leaves a comment open. */
  lemma {:induction false} ScanOpen(s: string, t: string, i: nat, ids: set<char>)
    requires i <= |s| && EndsInComment(s, i, ids)
    ensures |s + t| == |s| + |t|
    ensures
      var p := SkipTo(t, 0, '\n');
      Scan(s + t, i, ids) ==
        if p == |t| then (Scan(s, i, ids).0, true)
        else (Scan(s, i, ids).0 + [WS] + Scan(t, p + 1, ids).0, Scan(t, p + 1, ids).1)
    decreases |s| - i
  {
    hide SkipTo;
    match Lex(s, i, ids)
    case Broken =>
    case InComment => ScanLast(s, t, i, ids);
    case Next(token, end) =>
      hide Lex;
      LexGoesOn(s, t, i, ids);
      ScanOpen(s, t, end, ids);
      var p := SkipTo(t, 0, '\n');
      if p < |t| { Regroup(token, Scan(s, end, ids).0, Scan(t, p + 1, ids).0); }
  }

  lemma ScanLast(s: string, t: string, i: nat, ids: set<char>)
    requires i < |s| && Lex(s, i, ids).InComment?
    ensures |s + t| == |s| + |t|
    ensures
      var p := SkipTo(t, 0, '\n');
      Scan(s + t, i, ids) ==
        if p == |t| then ([], true) else ([] + [WS] + Scan(t, p + 1, ids).0, Scan(t, p + 1, ids).1)
  {
    var p := SkipTo(t, 0, '\n');
    assert (s + t)[i] == '-' && (s + t)[i + 1] == '-';
    SkipOver(s, t, i, '\n');
    hide SkipTo;
    if p < |t| {
      assert Lex(s + t, i, ids) == Next(WS, |s| + p + 1);
      ScanShift(s, t, p + 1, ids);
      hide Lex;
      assert [] + [WS] == [WS];
    }
  }

  lemma ScanRest(t: string, p: nat, ids: set<char>)
    requires p <= |t|
    ensures Scan(t[p..], 0, ids) == Scan(t, p, ids)
  {
    assert t == t[..p] + t[p..];
    ScanShift(t[..p], t[p..], 0, ids);
  }

  lemma CompleteIsFirm(s: string, ids: set<char>)
    requires IsComplete(s, ids)
    ensures Firm(Scan(s, 0, ids).0)
  {
    var tokens := Scan(s, 0, ids).0;
    if tokens != [] {
      DriveLast(INVALID, tokens);
    }
  }

  /** Without a line end in between: a text put directly behind a complete one is complete with it
      exactly when what is not swallowed by an open "--" comment is complete or says nothing. */
  lemma CompleteDirectly(s: string, t: string, ids: set<char>)
    requires IsComplete(s, ids)
    ensures
      var rest := Following(s, t, ids);
      IsComplete(s + t, ids) <==>
        IsComplete(rest, ids) || (Scan(rest, 0, ids).1 && Solid(Scan(rest, 0, ids).0) == [])
  {
    var a := Scan(s, 0, ids).0;
    var rest := Following(s, t, ids);
    var b := Scan(rest, 0, ids).0;
    StartOrNothing(b);
    if !EndsInComment(s, 0, ids) {
      CompleteIsFirm(s, ids);
      ScanGoesOn(s, t, 0, ids);
      DriveJoin(INVALID, a, b);
    } else {
      ScanOpen(s, t, 0, ids);
      var p := SkipTo(t, 0, '\n');
      if p < |t| {
        ScanRest(t, p + 1, ids);
        DriveJoin(INVALID, a + [WS], b);
        DriveOn(INVALID, a, WS);
      }
    }
  }

  /** So two complete texts are complete together unless the first ends in a comment. */
  lemma CompleteUnlessComment(s: string, t: string, ids: set<char>)
    requires IsComplete(s, ids) && IsComplete(t, ids) && !EndsInComment(s, 0, ids)
    ensures IsComplete(s + t, ids)
  {
    CompleteDirectly(s, t, ids);
    hide IsComplete;
  }

  /** Without the line end it fails: the first text may end in a "--" comment that swallows part of
      the second. */
  lemma LineEndNeeded(ids: set<char>)
    requires ids !! {';', '-', '\'', '\n'}
    ensures IsComplete(";--", ids) && IsComplete("'\n';", ids) && !IsComplete(";--" + "'\n';", ids)
  {
    var s, t := ";--", "'\n';";
    assert Lex(s, 0, ids) == Next(SEMI, 1) && Lex(s, 1, ids) == InComment by {
      assert SkipTo(s, 1, '\n') == SkipTo(s, 2, '\n') == SkipTo(s, 3, '\n') == 3;
    }
    assert Lex(t, 0, ids) == Next(OTHER, 3) && Lex(t, 3, ids) == Next(SEMI, 4) by {
      assert SkipTo(t, 1, '\'') == SkipTo(t, 2, '\'') == 2;
    }
    assert Scan(t, 4, ids) == ([], true);
    assert Scan(t, 3, ids).0 == [SEMI] && Scan(t, 3, ids).1;
    assert Scan(t, 0, ids).0 == [OTHER, SEMI];
    assert Drive(NORMAL, [SEMI]) == START;
    var u := s + t;
    assert u == ";--'\n';";
    assert Lex(u, 0, ids) == Next(SEMI, 1);
    assert Lex(u, 1, ids) == Next(WS, 5) by {
      assert SkipTo(u, 1, '\n') == SkipTo(u, 2, '\n') == SkipTo(u, 3, '\n') == SkipTo(u, 4, '\n') == 4;
    }
    assert Lex(u, 5, ids) == Broken by {
      assert SkipTo(u, 6, '\'') == SkipTo(u, 7, '\'') == 7;
    }
    assert !Scan(u, 5, ids).1;
    assert !Scan(u, 1, ids).1;
  }
}
