/** ALTER TABLE RENAME: the lists of rename tokens and the right-to-left edit of the SQL text. */
module RenameEdit {
  import opened Wrappers

  // ---------------------------------------------------------------- the text

  const NUL := '\0'

  /** Every quote q doubled. */
  function Doubled(s: string, q: char): string {
    if s == "" then "" else (if s[0] == q then [q, q] else [s[0]]) + Doubled(s[1..], q)
  }

  /** The %w conversion between double quotes. */
  function Quoted(name: string): string {
    "\"" + Doubled(name, '"') + "\""
  }

  lemma {:induction false} DoubledSize(s: string, q: char)
    ensures |Doubled(s, q)| >= |s| && (NUL !in s && q != NUL ==> NUL !in Doubled(s, q))
  {
    if s != "" {
      DoubledSize(s[1..], q);
    }
  }

  /** The character a C string has at position i: its terminator after the end. */
  function CharAt(s: string, i: nat): char
    requires i <= |s|
  {
    if i < |s| then s[i] else NUL
  }

  /** What replaces the token that starts at z: the new name as it is when the token was a bare
      identifier and quotes were not asked for, and the quoted name otherwise. */
  function Replacement(sql: string, z: nat, name: string, quote: bool, idChars: set<char>): string
    requires z <= |sql|
  {
    if quote || CharAt(sql, z) !in idChars then Quoted(name) else name
  }

  datatype Edit = Edit(sql: string, name: string, quote: bool, idChars: set<char>)

  function NewText(e: Edit, z: nat): string
    requires z <= |e.sql|
  {
    Replacement(e.sql, z, e.name, e.quote, e.idChars)
  }

  /** The SQL from position i on with all tokens, given as start and length, replaced at once. */
  function Replaced(e: Edit, tokens: map<nat, nat>, i: nat): string
    decreases |e.sql| + 1 - i
  {
    if i > |e.sql| then ""
    else if i in tokens && tokens[i] > 0 then NewText(e, i) + Replaced(e, tokens, i + tokens[i])
    else (if i in tokens then NewText(e, i) else "")
         + (if i < |e.sql| then [e.sql[i]] + Replaced(e, tokens, i + 1) else "")
  }

  lemma AtToken(e: Edit, tokens: map<nat, nat>, i: nat)
    requires i <= |e.sql| && i in tokens
    ensures Replaced(e, tokens, i) == NewText(e, i) +
      (if tokens[i] > 0 then Replaced(e, tokens, i + tokens[i])
       else if i < |e.sql| then [e.sql[i]] + Replaced(e, tokens, i + 1) else "")
  {
  }

  lemma AtPlain(e: Edit, tokens: map<nat, nat>, i: nat)
    requires i <= |e.sql| && i !in tokens
    ensures Replaced(e, tokens, i) == if i < |e.sql| then [e.sql[i]] + Replaced(e, tokens, i + 1) else ""
  {
  }

  lemma Associate(x: string, y: string, z: string)
    ensures x + (y + z) == x + y + z
  {
  }

  lemma NotInBoth(c: char, x: string, y: string)
    requires c !in x && c !in y
    ensures c !in x + y
  {
  }

  /** Text without tokens is copied. */
  lemma {:induction false} Copied(e: Edit, tokens: map<nat, nat>, a: nat, b: nat)
    requires a <= b <= |e.sql| && forall k :: a <= k < b ==> k !in tokens
    ensures Replaced(e, tokens, a) == e.sql[a..b] + Replaced(e, tokens, b)
    decreases b - a
  {
    hide Replaced;
    if a == b {
      assert e.sql[a..b] == "";
    } else {
      AtPlain(e, tokens, a);
      Copied(e, tokens, a + 1, b);
      Associate([e.sql[a]], e.sql[a + 1..b], Replaced(e, tokens, b));
      assert e.sql[a..b] == [e.sql[a]] + e.sql[a + 1..b];
    }
  }

  /** Tokens that start before i do not matter from i on. */
  lemma {:induction false} OnlyLater(e: Edit, tokens: map<nat, nat>, z: nat, n: nat, i: nat)
    requires z < i
    ensures Replaced(e, tokens[z := n], i) == Replaced(e, tokens, i)
    decreases |e.sql| + 1 - i
  {
    if i <= |e.sql| {
      if i in tokens && tokens[i] > 0 {
        OnlyLater(e, tokens, z, n, i + tokens[i]);
      } else {
        OnlyLater(e, tokens, z, n, i + 1);
      }
    }
  }

  /** One more token, to the left of all those done so far. */
  lemma OneMore(e: Edit, done: map<nat, nat>, z: nat, n: nat, lim: nat)
    requires z + n <= lim <= |e.sql| && z !in done && forall k :: k in done ==> k >= lim
    ensures Replaced(e, done[z := n], z) == NewText(e, z) + (e.sql[z + n..lim] + Replaced(e, done, lim))
  {
    OneToken(e, done, z, n);
    Copied(e, done, z + n, lim);
  }

  lemma OneToken(e: Edit, done: map<nat, nat>, z: nat, n: nat)
    requires z + n <= |e.sql| && z !in done && forall k :: k in done ==> k >= z + n
    ensures Replaced(e, done[z := n], z) == NewText(e, z) + Replaced(e, done, z + n)
  {
    hide NewText, Replaced;
    var tokens := done[z := n];
    AtToken(e, tokens, z);
    if n > 0 {
      OnlyLater(e, done, z, n, z + n);
    } else {
      AtPlain(e, done, z);
      OnlyLater(e, done, z, n, z + 1);
    }
  }

  lemma {:induction false} NoNul(e: Edit, tokens: map<nat, nat>, i: nat)
    requires NUL !in e.sql && NUL !in e.name
    ensures i <= |e.sql| ==> NUL !in NewText(e, i)
    ensures NUL !in Replaced(e, tokens, i)
    decreases |e.sql| + 1 - i
  {
    if i <= |e.sql| {
      NewTextNoNul(e, i);
      hide Replaced, NewText;
      var rest := if i in tokens && tokens[i] > 0 then Replaced(e, tokens, i + tokens[i])
                  else if i < |e.sql| then [e.sql[i]] + Replaced(e, tokens, i + 1) else "";
      if i in tokens && tokens[i] > 0 {
        NoNul(e, tokens, i + tokens[i]);
      } else if i < |e.sql| {
        NoNul(e, tokens, i + 1);
        NotInBoth(NUL, [e.sql[i]], Replaced(e, tokens, i + 1));
      }
      if i in tokens {
        AtToken(e, tokens, i);
        NotInBoth(NUL, NewText(e, i), rest);
      } else {
        AtPlain(e, tokens, i);
      }
    }
  }

  lemma NewTextNoNul(e: Edit, i: nat)
    requires i <= |e.sql| && NUL !in e.name
    ensures NUL !in NewText(e, i)
  {
    DoubledSize(e.name, '"');
  }

  // ---------------------------------------------------------------- the token lists

  /** A token of the SQL, by offset and length, and the parse tree element made from it. */
  class RenameToken {
    const p: int
    const z: nat
    const n: nat
    var pNext: RenameToken?

    constructor (p: int, z: nat, n: nat, pNext: RenameToken?)
      ensures this.p == p && this.z == z && this.n == n && this.pNext == pNext
    {
      this.p, this.z, this.n, this.pNext := p, z, n, pNext;
    }
  }

  /** head and the pNext fields run through exactly the tokens of list, each once; nodes are the
      tokens allotted to the list. */
  ghost predicate Linked(head: RenameToken?, list: seq<RenameToken>, nodes: set<RenameToken>)
    reads nodes
  {
    && (forall i {:trigger list[i]} :: 0 <= i < |list| ==> list[i] in nodes)
    && head == (if list == [] then null else list[0])
    && (forall i {:trigger list[i].pNext} :: 0 <= i < |list| ==>
         list[i].pNext == if i + 1 < |list| then list[i + 1] else null)
    && (forall i, j :: 0 <= i < j < |list| ==> list[i] != list[j])
  }

  ghost function Without(list: seq<RenameToken>, k: nat): seq<RenameToken>
    requires k < |list|
  {
    list[..k] + list[k + 1..]
  }

  class Parse {
    var pRename: RenameToken?
    ghost var list: seq<RenameToken>
    ghost var nodes: set<RenameToken>

    constructor ()
      ensures Valid() && list == [] && nodes == {}
    {
      pRename, list, nodes := null, [], {};
    }

    ghost predicate Valid()
      reads this, nodes
    {
      Linked(pRename, list, nodes)
    }

    /** sqlite3RenameTokenMap: remembers that element pPtr was made from the token at z. */
    method TokenMap(pPtr: int, z: nat, n: nat) returns (r: int)
      requires Valid()
      modifies this
      ensures Valid() && r == pPtr
      ensures |list| == |old(list)| + 1 && list[1..] == old(list) && fresh(list[0]) && nodes == old(nodes) + {list[0]}
      ensures list[0].p == pPtr && list[0].z == z && list[0].n == n
    {
      var token := new RenameToken(pPtr, z, n, pRename);
      list, nodes := [token] + list, nodes + {token};
      pRename := token;
      return pPtr;
    }

    method Unlink(prev: RenameToken?, pp: RenameToken, ghost n: nat)
      requires Valid() && n < |list| && pp == list[n]
      requires prev == if n == 0 then null else list[n - 1]
      modifies this, nodes
      ensures Valid() && list == Without(old(list), n) && nodes == old(nodes) - {pp}
    {
      if prev == null {
        pRename := pp.pNext;
      } else {
        prev.pNext := pp.pNext;
      }
      list, nodes := Without(list, n), nodes - {pp};
    }
  }

  class RenameCtx {
    var pList: RenameToken?
    var nList: nat
    ghost var list: seq<RenameToken>
    ghost var nodes: set<RenameToken>

    constructor ()
      ensures Valid() && list == [] && nList == 0 && nodes == {}
    {
      pList, nList, list, nodes := null, 0, [], {};
    }

    ghost predicate Valid()
      reads this, nodes
    {
      Linked(pList, list, nodes)
    }

    /** renameTokenFind: moves the first token of the parse made from pPtr, if any, to the head of this
        list. */
    method TokenFind(parse: Parse, pPtr: int)
      requires Valid() && parse.Valid() && nodes !! parse.nodes
      modifies this, parse, parse.nodes
      ensures Valid() && parse.Valid() && nodes !! parse.nodes
      ensures nodes + parse.nodes == old(nodes) + old(parse.nodes)
      ensures if exists i :: 0 <= i < |old(parse.list)| && old(parse.list)[i].p == pPtr
        then exists k: nat :: (IsFirst(old(parse.list), pPtr, k)
                         && parse.list == Without(old(parse.list), k)
                         && list == [old(parse.list)[k]] + old(list) && nList == old(nList) + 1)
        else parse.list == old(parse.list) && list == old(list) && nList == old(nList)
    {
      ghost var n := 0;
      ghost var all := parse.list;
      var prev: RenameToken? := null;
      var pp := parse.pRename;
      while pp != null && pp.p != pPtr
        invariant n <= |all| && pp == (if n < |all| then all[n] else null)
        invariant prev == (if n == 0 then null else all[n - 1])
        invariant forall i :: 0 <= i < n ==> all[i].p != pPtr
        decreases |all| - n
      {
        prev := pp;
        pp := pp.pNext;
        n := n + 1;
      }
      if pp != null {
        parse.Unlink(prev, pp, n);
        pp.pNext := pList;
        pList := pp;
        nList := nList + 1;
        list, nodes := [pp] + list, nodes + {pp};
      }
    }
  }

  ghost predicate IsFirst(list: seq<RenameToken>, pPtr: int, k: nat) {
    k < |list| && list[k].p == pPtr && forall i :: 0 <= i < k ==> list[i].p != pPtr
  }

  /** renameColumnTokenNext: takes the token that starts furthest to the right out of the list. */
  method ColumnTokenNext(ctx: RenameCtx) returns (best: RenameToken, ghost k: nat)
    requires ctx.Valid() && ctx.list != []
    modifies ctx`pList, ctx`list, ctx.nodes
    ensures ctx.Valid() && k < |old(ctx.list)| && best == old(ctx.list)[k] && ctx.list == Without(old(ctx.list), k)
    ensures forall i :: 0 <= i < |old(ctx.list)| ==> old(ctx.list)[i].z <= best.z
  {
    ghost var all := ctx.list;
    best, k := FindBest(ctx);
    ghost var n := 0;
    var prev: RenameToken? := null;
    var pp := ctx.pList;
    while pp != best
      invariant n <= k && pp == all[n]
      invariant prev == (if n == 0 then null else all[n - 1])
      decreases k - n
    {
      prev := pp;
      pp := pp.pNext;
      n := n + 1;
    }
    if prev == null {
      ctx.pList := best.pNext;
    } else {
      prev.pNext := best.pNext;
    }
    ctx.list := Without(all, k);
  }

  method FindBest(ctx: RenameCtx) returns (best: RenameToken, ghost k: nat)
    requires ctx.Valid() && ctx.list != []
    ensures k < |ctx.list| && best == ctx.list[k]
    ensures forall i :: 0 <= i < |ctx.list| ==> ctx.list[i].z <= best.z
  {
    best, k := ctx.pList, 0;
    var token := best.pNext;
    ghost var n := 1;
    while token != null
      invariant 1 <= n <= |ctx.list| && token == (if n < |ctx.list| then ctx.list[n] else null)
      invariant k < n && best == ctx.list[k]
      invariant forall i :: 0 <= i < n ==> ctx.list[i].z <= best.z
      decreases |ctx.list| - n
    {
      if token.z > best.z {
        best, k := token, n;
      }
      token := token.pNext;
      n := n + 1;
    }
  }

  // ---------------------------------------------------------------- the edit

  /** Tokens inside the text, no two overlapping and no two starting together. */
  ghost predicate Disjoint(list: seq<RenameToken>, size: nat) {
    && (forall i {:trigger list[i]} :: 0 <= i < |list| ==> list[i].z + list[i].n <= size)
    && (forall i, j {:trigger list[i], list[j]} :: 0 <= i < |list| && 0 <= j < |list| && i != j ==>
         list[i].z != list[j].z && (list[i].z < list[j].z ==> list[i].z + list[i].n <= list[j].z))
  }

  /** The tokens of a list by their starts. */
  ghost function Spans(list: seq<RenameToken>): map<nat, nat> {
    if list == [] then map[] else Spans(list[1..])[list[0].z := list[0].n]
  }

  ghost predicate ToDo(list: seq<RenameToken>, done: map<nat, nat>, lim: nat) {
    && (forall i {:trigger list[i]} :: 0 <= i < |list| ==> list[i].z + list[i].n <= lim && list[i].z !in done)
    && (forall k :: k in done ==> k >= lim)
  }

  lemma {:induction false} SpansHold(list: seq<RenameToken>, size: nat)
    requires Disjoint(list, size)
    ensures forall z :: z in Spans(list) ==>
      exists i :: 0 <= i < |list| && list[i].z == z && Spans(list)[z] == list[i].n
    ensures forall i :: 0 <= i < |list| ==> list[i].z in Spans(list) && Spans(list)[list[i].z] == list[i].n
  {
    if list != [] {
      var rest := list[1..];
      SpansHold(rest, size);
      forall i | 0 <= i < |list|
        ensures list[i].z in Spans(list) && Spans(list)[list[i].z] == list[i].n
      {
        if i > 0 {
          assert list[i] == rest[i - 1];
        }
      }
      forall z | z in Spans(list)
        ensures exists i :: 0 <= i < |list| && list[i].z == z && Spans(list)[z] == list[i].n
      {
        if z == list[0].z {
        } else {
          var i :| 0 <= i < |rest| && rest[i].z == z && Spans(rest)[z] == rest[i].n;
          assert list[i + 1] == rest[i];
        }
      }
    }
  }

  lemma InitiallyToDo(list: seq<RenameToken>, size: nat)
    requires Disjoint(list, size)
    ensures ToDo(list, map[], size) && Together(list, map[], Spans(list))
  {
    SpansHold(list, size);
  }

  /** all is what has been done and what the list still holds. */
  ghost predicate Together(list: seq<RenameToken>, done: map<nat, nat>, all: map<nat, nat>) {
    && (forall z :: z in all ==>
         if z in done then done[z] == all[z] else exists i :: 0 <= i < |list| && list[i].z == z && all[z] == list[i].n)
    && (forall z :: z in done ==> z in all)
    && (forall i {:trigger list[i]} :: 0 <= i < |list| ==> list[i].z in all && all[list[i].z] == list[i].n)
  }

  lemma AllDone(done: map<nat, nat>, all: map<nat, nat>)
    requires Together([], done, all)
    ensures done == all
  {
  }

  /** Taking the rightmost token off the list. */
  lemma StillApart(list: seq<RenameToken>, k: nat, done: map<nat, nat>, lim: nat, size: nat)
    requires Disjoint(list, size) && ToDo(list, done, lim)
    requires k < |list| && forall i :: 0 <= i < |list| ==> list[i].z <= list[k].z
    ensures Disjoint(Without(list, k), size) && ToDo(Without(list, k), done[list[k].z := list[k].n], list[k].z)
  {
    var rest := Without(list, k);
    assert forall i :: 0 <= i < |rest| ==> rest[i] == list[if i < k then i else i + 1];
    assert forall i :: 0 <= i < |list| && i != k ==> list[i].z < list[k].z && list[i].z + list[i].n <= list[k].z;
  }

  lemma StillTogether(list: seq<RenameToken>, k: nat, done: map<nat, nat>, all: map<nat, nat>)
    requires k < |list| && Together(list, done, all)
    ensures Together(Without(list, k), done[list[k].z := list[k].n], all)
  {
    var rest := Without(list, k);
    var done' := done[list[k].z := list[k].n];
    assert forall i :: 0 <= i < |rest| ==> rest[i] == list[if i < k then i else i + 1];
    forall z | z in all && z !in done'
      ensures exists i :: 0 <= i < |rest| && rest[i].z == z && all[z] == rest[i].n
    {
      var i :| 0 <= i < |list| && list[i].z == z && all[z] == list[i].n;
      assert rest[if i < k then i else i - 1] == list[i];
    }
  }

  /** s written over a buffer from dst on. */
  function Overwritten(buf: string, dst: nat, s: string): (r: string)
    requires dst + |s| <= |buf|
    ensures |r| == |buf|
  {
    buf[..dst] + s + buf[dst + |s|..]
  }

  /** The text with n characters at off exchanged for s. */
  function Exchanged(text: string, off: nat, n: nat, s: string): string
    requires off + n <= |text|
  {
    text[..off] + s + text[off + n..]
  }

  /** memmove within a buffer. */
  method MemMove(a: array<char>, dst: nat, src: nat, n: nat)
    requires dst + n <= a.Length && src + n <= a.Length
    modifies a
    ensures a[..] == Overwritten(old(a[..]), dst, old(a[..])[src..src + n])
  {
    forall i | 0 <= i < n {
      a[dst + i] := a[src + i];
    }
  }

  /** memcpy of a string to a place in the buffer. */
  method MemCpy(a: array<char>, dst: nat, s: string)
    requires dst + |s| <= a.Length
    modifies a
    ensures a[..] == Overwritten(old(a[..]), dst, s)
  {
    forall i | 0 <= i < |s| {
      a[dst + i] := s[i];
    }
  }

  /** Making room first and then copying exchanges the text. */
  lemma MoveThenCopy(was: string, off: nat, n: nat, s: string, nOut: nat)
    requires off + n <= nOut < |was| && nOut - n + |s| < |was|
    ensures var moved := Overwritten(was, off + |s|, was[off + n..nOut]);
      Overwritten(moved, off, s)[..nOut - n + |s|] == Exchanged(was[..nOut], off, n, s)
  {
    var moved := Overwritten(was, off + |s|, was[off + n..nOut]);
    assert moved[off + |s|..nOut - n + |s|] == was[off + n..nOut];
    assert moved[..off] == was[..off];
    assert Overwritten(moved, off, s)[..nOut - n + |s|] == moved[..off] + s + moved[off + |s|..nOut - n + |s|];
  }

  lemma CopyOnly(was: string, off: nat, s: string, nOut: nat)
    requires off + |s| <= nOut < |was|
    ensures Overwritten(was, off, s)[..nOut] == Exchanged(was[..nOut], off, |s|, s)
    ensures Overwritten(was, off, s)[nOut] == was[nOut]
  {
  }

  lemma TerminateThenCopy(moved: string, off: nat, s: string, end: nat)
    requires off + |s| <= end < |moved|
    ensures Overwritten(moved[end := NUL], off, s)[..end] == Overwritten(moved, off, s)[..end]
    ensures Overwritten(moved[end := NUL], off, s)[end] == NUL
  {
  }

  /** Exchanges the n characters at off for s, in a buffer whose text has nOut characters. */
  method Splice(a: array<char>, nOut: nat, off: nat, n: nat, s: string) returns (nOut': nat)
    requires off + n <= nOut && nOut - n + |s| < a.Length && nOut < a.Length && a[..][nOut] == NUL
    modifies a
    ensures nOut' == nOut - n + |s| && a[..][nOut'] == NUL
    ensures a[..][..nOut'] == Exchanged(old(a[..][..nOut]), off, n, s)
  {
    hide Overwritten, Exchanged;
    ghost var was := a[..];
    nOut' := nOut;
    if n != |s| {
      MoveThenCopy(was, off, n, s, nOut);
      MemMove(a, off + |s|, off + n, nOut - (off + n));
      nOut' := nOut + |s| - n;
      TerminateThenCopy(a[..], off, s, nOut');
      a[nOut'] := NUL;
    } else {
      CopyOnly(was, off, s, nOut);
    }
    MemCpy(a, off, s);
  }

  /** The text in the buffer up to the terminator. */
  method Text(a: array<char>, ghost n: nat) returns (s: string)
    requires n < a.Length && a[..][n] == NUL && NUL !in a[..][..n]
    ensures s == a[..][..n]
  {
    s := "";
    var i := 0;
    while a[i] != NUL
      invariant i <= n && s == a[..i]
      decreases n - i
    {
      assert i == n || a[..][..n][i] == a[i];
      s := s + [a[i]];
      i := i + 1;
    }
  }

  function Room(n: nat, size: nat): nat {
    n * size
  }

  lemma RoomStep(n: nat, size: nat)
    ensures Room(n + 1, size) == Room(n, size) + size
  {
  }

  /** Where renameEditSql stands: the tokens from lim on are replaced, the others still to come; the
      buffer has room for a quoted name for each of them. */
  ghost predicate Editing(e: Edit, text: string, list: seq<RenameToken>, done: map<nat, nat>, lim: nat,
                          all: map<nat, nat>) {
    && lim <= |e.sql| && Disjoint(list, |e.sql|) && ToDo(list, done, lim) && Together(list, done, all)
    && text == e.sql[..lim] + Replaced(e, done, lim)
  }

  lemma EditStep(e: Edit, text: string, list: seq<RenameToken>, done: map<nat, nat>, lim: nat, all: map<nat, nat>,
                 k: nat)
    requires Editing(e, text, list, done, lim, all)
    requires k < |list| && forall i :: 0 <= i < |list| ==> list[i].z <= list[k].z
    ensures list[k].z + list[k].n <= lim <= |e.sql| && lim <= |text|
    ensures var t := list[k]; Editing(e, Exchanged(text, t.z, t.n, NewText(e, t.z)),
                              Without(list, k), done[t.z := t.n], t.z, all)
  {
    var t := list[k];
    hide NewText, Replaced, Disjoint, ToDo, Together, Without;
    ToDoAt(list, done, lim, k);
    StillApart(list, k, done, lim, |e.sql|);
    StillTogether(list, k, done, all);
    OneMore(e, done, t.z, t.n, lim);
    SpliceTail(e.sql, text, t.z, t.n, lim, Replaced(e, done, lim), NewText(e, t.z));
  }

  lemma ToDoAt(list: seq<RenameToken>, done: map<nat, nat>, lim: nat, k: nat)
    requires ToDo(list, done, lim) && k < |list|
    ensures list[k].z + list[k].n <= lim && list[k].z !in done && forall z :: z in done ==> z >= lim
  {
  }

  lemma SpliceTail(sql: string, text: string, z: nat, n: nat, lim: nat, later: string, s: string)
    requires z + n <= lim <= |sql| && text == sql[..lim] + later
    ensures lim <= |text| && Exchanged(text, z, n, s) == sql[..z] + (s + (sql[z + n..lim] + later))
  {
    assert text[..z] == sql[..z];
    assert text[z + n..] == sql[z + n..lim] + later;
  }

  /** The next token to replace, and the text once it will have been replaced. */
  method NextEdit(ctx: RenameCtx, ghost text: string, ghost e: Edit, ghost done: map<nat, nat>, ghost lim: nat,
                  ghost all: map<nat, nat>)
    returns (best: RenameToken, ghost done': map<nat, nat>, ghost lim': nat)
    requires ctx.Valid() && ctx.list != [] && Editing(e, text, ctx.list, done, lim, all)
    modifies ctx`pList, ctx`list, ctx.nodes
    ensures ctx.Valid() && |ctx.list| == |old(ctx.list)| - 1
    ensures best.z + best.n <= |text| && best.z <= |e.sql|
    ensures Editing(e, Exchanged(text, best.z, best.n, NewText(e, best.z)), ctx.list, done', lim', all)
  {
    ghost var before := ctx.list;
    hide Editing, Disjoint, ToDo, Together, Replaced;
    ghost var k;
    best, k := ColumnTokenNext(ctx);
    EditStep(e, text, before, done, lim, all, k);
    assert ctx.list == Without(before, k);
    done', lim' := done[best.z := best.n], best.z;
  }

  lemma NewTextIs(e: Edit, z: nat)
    requires z <= |e.sql|
    ensures NewText(e, z) == if CharAt(e.sql, z) in e.idChars && !e.quote then e.name else Quoted(e.name)
  {
  }

  /** One round: the rightmost token left is replaced in the buffer. */
  method EditOne(ctx: RenameCtx, zOut: array<char>, nOut: nat, zBare: string, zQuot: string, ghost e: Edit,
                 zSql: string, idChars: set<char>, ghost done: map<nat, nat>, ghost lim: nat, ghost all: map<nat, nat>)
    returns (nOut': nat, ghost done': map<nat, nat>, ghost lim': nat)
    requires ctx.Valid() && ctx.list != []
    requires e.sql == zSql && e.idChars == idChars && zQuot == Quoted(e.name)
    requires zBare == (if e.quote then zQuot else e.name)
    requires |e.name| <= |zQuot| && nOut + Room(|ctx.list|, |zQuot|) < zOut.Length && zOut[..][nOut] == NUL
    requires Editing(e, zOut[..][..nOut], ctx.list, done, lim, all)
    modifies ctx`pList, ctx`list, ctx.nodes, zOut
    ensures ctx.Valid() && |ctx.list| == |old(ctx.list)| - 1
    ensures nOut' + Room(|ctx.list|, |zQuot|) < zOut.Length && zOut[..][nOut'] == NUL
    ensures Editing(e, zOut[..][..nOut'], ctx.list, done', lim', all)
  {
    hide Editing, Exchanged, Room, Linked, RenameCtx.Valid, Quoted, NewText, Replacement;
    RoomStep(|ctx.list| - 1, |zQuot|);
    var best;
    best, done', lim' := NextEdit(ctx, zOut[..][..nOut], e, done, lim, all);
    var zReplace := if CharAt(zSql, best.z) in idChars then zBare else zQuot;
    NewTextIs(e, best.z);
    nOut' := Splice(zOut, nOut, best.z, best.n, zReplace);
  }

  /** renameEditSql: the text with all tokens of the list replaced at once, whatever their order. */
  method EditSql(ctx: RenameCtx, zSql: string, zNew: string, bQuote: bool, idChars: set<char>) returns (result: string)
    requires NUL !in zSql && NUL !in zNew
    requires ctx.Valid() && ctx.nList == |ctx.list| && Disjoint(ctx.list, |zSql|)
    modifies ctx`pList, ctx`list, ctx.nodes
    ensures ctx.Valid() && ctx.list == []
    ensures result == Replaced(Edit(zSql, zNew, bQuote, idChars), Spans(old(ctx.list)), 0)
  {
    hide *;
    ghost var e := Edit(zSql, zNew, bQuote, idChars);
    ghost var all := Spans(ctx.list);
    var zQuot := Quoted(zNew);
    QuotedSize(zNew);
    var zBare := if bQuote then zQuot else zNew;
    var nOut: nat := |zSql|;
    var zOut := NewBuffer(zSql, Room(ctx.nList, |zQuot|));
    ghost var done: map<nat, nat> := map[];
    ghost var lim: nat := |zSql|;
    InitialEdit(e, ctx.list);
    HeadNull(ctx);
    while ctx.pList != null
      invariant ctx.Valid() && (ctx.pList == null <==> ctx.list == [])
      invariant nOut + Room(|ctx.list|, |zQuot|) < zOut.Length && zOut[..][nOut] == NUL
      invariant Editing(e, zOut[..][..nOut], ctx.list, done, lim, all)
      invariant fresh(zOut)
      decreases |ctx.list|
    {
      nOut, done, lim := EditOne(ctx, zOut, nOut, zBare, zQuot, e, zSql, idChars, done, lim, all);
      HeadNull(ctx);
    }
    FinalEdit(e, zOut[..][..nOut], done, lim, all);
    result := Text(zOut, nOut);
  }

  method NewBuffer(zSql: string, room: nat) returns (zOut: array<char>)
    ensures fresh(zOut) && zOut.Length == |zSql| + room + 1
    ensures zOut[..][..|zSql|] == zSql && zOut[..][|zSql|] == NUL
  {
    zOut := new char[|zSql| + room + 1](_ => NUL);
    MemCpy(zOut, 0, zSql);
  }

  lemma HeadNull(ctx: RenameCtx)
    requires ctx.Valid()
    ensures ctx.pList == null <==> ctx.list == []
  {
  }

  lemma QuotedSize(name: string)
    ensures |Quoted(name)| >= |name| + 2
  {
    DoubledSize(name, '"');
  }

  lemma InitialEdit(e: Edit, list: seq<RenameToken>)
    requires Disjoint(list, |e.sql|)
    ensures Editing(e, e.sql, list, map[], |e.sql|, Spans(list))
  {
    InitiallyToDo(list, |e.sql|);
    AtPlain(e, map[], |e.sql|);
  }

  lemma FinalEdit(e: Edit, text: string, done: map<nat, nat>, lim: nat, all: map<nat, nat>)
    requires Editing(e, text, [], done, lim, all) && NUL !in e.sql && NUL !in e.name
    ensures text == Replaced(e, all, 0) && NUL !in text
  {
    AllDone(done, all);
    NoNul(e, all, 0);
    Copied(e, all, 0, lim);
  }

  // ---------------------------------------------------------------- reading a quoted name back

  predicate IsQuote(c: char) {
    c in {'\'', '"', '`', '['}
  }

  function Closing(quote: char): char {
    if quote == '[' then ']' else quote
  }

  /** What is quoted at the front of s, up to the closing quote, with each doubled quote read as one;
      None when the closing quote is missing. */
  function Inside(s: string, q: char): (r: Option<string>) {
    if s == "" then None
    else if s[0] == q then
      if |s| > 1 && s[1] == q then Before(q, Inside(s[2..], q)) else Some("")
    else Before(s[0], Inside(s[1..], q))
  }

  function Before(c: char, r: Option<string>): Option<string> {
    match r
    case None => None
    case Some(v) => Some([c] + v)
  }

  /** Reading on after what was quoted stops at the closing quote, whatever follows that is no quote. */
  lemma {:induction false} InsideDoubled(name: string, q: char, after: string)
    requires after == "" || after[0] != q
    ensures Inside(Doubled(name, q) + ([q] + after), q) == Some(name)
  {
    var tail := [q] + after;
    var s := Doubled(name, q) + tail;
    if name == "" {
      assert s == tail;
      assert after != "" ==> tail[1] == after[0];
    } else {
      var head := if name[0] == q then [q, q] else [name[0]];
      var rest := Doubled(name[1..], q) + tail;
      InsideDoubled(name[1..], q, after);
      assert s == head + rest;
      InsideHead(head, rest, name[0], q);
      assert name == [name[0]] + name[1..];
    }
  }

  lemma InsideHead(head: string, rest: string, c: char, q: char)
    requires head == if c == q then [q, q] else [c]
    ensures Inside(head + rest, q) == Before(c, Inside(rest, q))
  {
    assert (head + rest)[|head|..] == rest;
  }

  /** What a token stands for: what it quotes, in any of the four ways to quote, or itself. */
  function Reads(token: string): Option<string> {
    if token != "" && IsQuote(token[0]) then Inside(token[1..], Closing(token[0])) else Some(token)
  }

  /** A name between quotes of any kind, with closing quotes doubled, reads as the name. */
  lemma DequoteUndoesQuote(name: string, open: char, close: char)
    requires (open == close && open in {'"', '\'', '`'}) || (open == '[' && close == ']')
    ensures Reads([open] + Doubled(name, close) + [close]) == Some(name)
  {
    InsideDoubled(name, close, "");
    assert ([open] + Doubled(name, close) + [close])[1..] == Doubled(name, close) + ([close] + "");
  }

  /** What an edit puts in the place of a token reads as the new name. */
  lemma ReadsBack(e: Edit, z: nat)
    requires z <= |e.sql| && (e.quote || e.name == "" || !IsQuote(e.name[0]))
    ensures Reads(NewText(e, z)) == Some(e.name)
  {
    DequoteUndoesQuote(e.name, '"', '"');
  }

  /** A token that already spells the name: bare, or in double quotes. */
  ghost predicate Spells(e: Edit, z: nat, n: nat) {
    && 0 < n && z + n <= |e.sql|
    && ((e.sql[z..z + n] == e.name && e.sql[z] in e.idChars)
        || (e.sql[z..z + n] == Quoted(e.name) && '"' !in e.idChars))
  }

  /** Renaming to the same name leaves the text as it is: bare tokens stay bare and quoted ones quoted. */
  lemma {:induction false} RenameToItself(e: Edit, tokens: map<nat, nat>, i: nat)
    requires !e.quote && i <= |e.sql| && forall z {:trigger tokens[z]} :: z in tokens ==> Spells(e, z, tokens[z])
    ensures Replaced(e, tokens, i) == e.sql[i..]
    decreases |e.sql| - i
  {
    hide Replaced, Quoted;
    if i in tokens {
      AtToken(e, tokens, i);
      RenameToItself(e, tokens, i + tokens[i]);
      assert Spells(e, i, tokens[i]) && NewText(e, i) == e.sql[i..i + tokens[i]] by { SpelledText(e, i, tokens[i]); }
    } else {
      AtPlain(e, tokens, i);
      if i < |e.sql| {
        RenameToItself(e, tokens, i + 1);
      }
    }
  }

  lemma SpelledText(e: Edit, z: nat, n: nat)
    requires !e.quote && Spells(e, z, n)
    ensures NewText(e, z) == e.sql[z..z + n]
  {
    assert e.sql[z] == e.sql[z..z + n][0];
  }

  /** How the loop of sqlite3Dequote goes on at position i of s. */
  lemma InsideAt(s: string, q: char, i: nat)
    requires i < |s|
    ensures Inside(s[i..], q) ==
      if s[i] != q then Before(s[i], Inside(s[i + 1..], q))
      else if i + 1 < |s| && s[i + 1] == q then Before(q, Inside(s[i + 2..], q)) else Some("")
  {
    if i + 1 < |s| {
      assert s[i..][2..] == s[i + 2..];
    }
    assert s[i..][1..] == s[i + 1..];
  }

  /** What has been written so far and what is still quoted make up the whole. */
  ghost predicate Reading(whole: Option<string>, done: string, rest: Option<string>) {
    rest.Some? && whole == Some(done + rest.value)
  }

  lemma ReadOne(whole: Option<string>, done: string, c: char, rest: Option<string>)
    requires Reading(whole, done, Before(c, rest))
    ensures Reading(whole, done + [c], rest)
  {
    assert done + ([c] + rest.value) == done + [c] + rest.value;
  }

  lemma ReadAll(whole: Option<string>, done: string)
    requires Reading(whole, done, Some(""))
    ensures whole == Some(done)
  {
    assert done + "" == done;
  }

  /** The text cannot end inside the quotes. */
  lemma NotAtEnd(whole: Option<string>, done: string, s: string, i: nat, quote: char)
    requires i <= |s| && Reading(whole, done, Inside(s[i..], quote))
    ensures i < |s|
  {
  }

  /** sqlite3Dequote: rewrites a quoted token in place to what it quotes. */
  method Dequote(z: array<char>, ghost n: nat)
    requires n < z.Length && z[n] == NUL && NUL !in z[..n]
    requires IsQuote(z[0]) ==> Inside(z[1..n], Closing(z[0])).Some?
    modifies z
    ensures if IsQuote(old(z[0]))
      then exists m: nat :: m < z.Length && z[m] == NUL && Inside(old(z[1..n]), Closing(old(z[0]))) == Some(z[..m])
      else z[..] == old(z[..])
  {
    if !IsQuote(z[0]) {
      return;
    }
    ghost var s := z[..n];
    var quote := Closing(z[0]);
    ghost var whole := Inside(s[1..], quote);
    assert z[1..n] == s[1..] && quote != NUL;
    var i, j := 1, 0;
    assert z[..0] == "" && "" + whole.value == whole.value;
    assert Reading(whole, z[..j], Inside(s[i..], quote));
    hide Inside, Reading;
    while true
      invariant j < i <= n
      invariant forall k :: i <= k < n ==> z[k] == s[k]
      invariant z[n] == NUL && Reading(whole, z[..j], Inside(s[i..], quote))
      decreases n - i
    {
      NotAtEnd(whole, z[..j], s, i, quote);
      InsideAt(s, quote, i);
      ghost var done := z[..j];
      if z[i] == quote {
        if z[i + 1] == quote {
          ReadOne(whole, done, quote, Inside(s[i + 2..], quote));
          z[j] := quote;
          j := j + 1;
          assert z[..j] == done + [quote];
          i := i + 1;
        } else {
          ReadAll(whole, done);
          break;
        }
      } else {
        ReadOne(whole, done, z[i], Inside(s[i + 1..], quote));
        z[j] := z[i];
        j := j + 1;
        assert z[..j] == done + [s[i]];
      }
      i := i + 1;
    }
    ghost var done := z[..j];
    z[j] := NUL;
    assert z[..j] == done;
  }
}
