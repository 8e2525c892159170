/** What a text for sqlite3_complete is made of: words, quoted names and strings, comments, white space
    and single characters. Every text falls into such pieces, and each piece has one meaning, whatever
    stands inside a quote or a comment and however a keyword is spelled. */
module CompleteText {
  import opened Names
  import opened Complete

  datatype Piece =
    | Semicolon
    | Blank(c: char)
    | Block(body: string)                  // a comment between "/*" and "*/"
    | Line(body: string)                   // a comment from "--" to the line end
    | Quoted(open: char, body: string)     // '..', "..", `..` or [..]
    | Ident(w: string)
    | Symbol(c: char)

  function Closer(open: char): char {
    if open == '[' then ']' else open
  }

  function Text(p: Piece): string {
    match p
    case Semicolon => ";"
    case Blank(c) => [c]
    case Block(body) => "/*" + body + "*/"
    case Line(body) => "--" + body + "\n"
    case Quoted(open, body) => [open] + body + [Closer(open)]
    case Ident(w) => w
    case Symbol(c) => [c]
  }

  /** A keyword in any case; every other word is like any other token. */
  function Keyword(w: string): (r: Token)
    ensures r != SEMI && r != WS
  {
    if SameName(w, "create") then CREATE
    else if SameName(w, "trigger") then TRIGGER
    else if SameName(w, "temp") || SameName(w, "temporary") then TEMP
    else if SameName(w, "end") then END
    else if SameName(w, "explain") then EXPLAIN
    else OTHER
  }

  function Meaning(p: Piece): Token {
    match p
    case Semicolon => SEMI
    case Blank(_) => WS
    case Block(_) => WS
    case Line(_) => WS
    case Quoted(_, _) => OTHER
    case Ident(w) => Keyword(w)
    case Symbol(_) => OTHER
  }

  const WHITE: set<char> := {' ', '\r', '\t', '\n', '\U{000C}'}
  const OPENING: set<char> := {'[', '`', '"', '\''}

  /** A character that begins neither a word nor a piece of another kind. */
  predicate Plain(c: char) {
    c != ';' && c !in WHITE && c !in OPENING && c != '/' && c != '-'
  }

  predicate NoEnd(body: string) {
    forall i :: 0 <= i && i + 1 < |body| ==> !(body[i] == '*' && body[i + 1] == '/')
  }

  /** The piece is what its kind says. */
  predicate Proper(p: Piece, ids: set<char>) {
    match p
    case Semicolon => true
    case Blank(c) => c in WHITE
    case Block(body) => NoEnd(body)
    case Line(body) => '\n' !in body
    case Quoted(open, body) => open in OPENING && Closer(open) !in body
    case Ident(w) => w != "" && Plain(w[0]) && forall i :: 0 <= i < |w| ==> w[i] in ids
    case Symbol(c) => c == '/' || c == '-' || (Plain(c) && c !in ids)
  }

  /** What follows does not belong to the piece. */
  predicate Apart(p: Piece, rest: string, ids: set<char>) {
    rest == "" ||
    match p
    case Ident(_) => rest[0] !in ids
    case Symbol(c) => !(c == '/' && rest[0] == '*') && !(c == '-' && rest[0] == '-')
    case _ => true
  }

  // ---------------------------------------------------------------- searches

  lemma {:induction false} SkipIs(s: string, i: nat, j: nat, c: char)
    requires i <= j <= |s| && (forall k :: i <= k < j ==> s[k] != c) && (j < |s| ==> s[j] == c)
    ensures SkipTo(s, i, c) == j
    decreases |s| - i
  {
    if i < j { SkipIs(s, i + 1, j, c); }
  }

  lemma {:induction false} SkipMeans(s: string, i: nat, c: char)
    requires i <= |s|
    ensures forall k :: i <= k < SkipTo(s, i, c) ==> s[k] != c
    decreases |s| - i
  {
    if i < |s| && s[i] != c { SkipMeans(s, i + 1, c); }
  }

  predicate EndsComment(s: string, k: nat) {
    k + 1 < |s| && s[k] == '*' && s[k + 1] == '/'
  }

  lemma {:induction false} CommentIs(s: string, i: nat, j: nat)
    requires i <= j <= |s| && (forall k :: i <= k < j ==> !EndsComment(s, k)) && (j < |s| ==> EndsComment(s, j))
    ensures CommentEnd(s, i) == j
    decreases |s| - i
  {
    if i < j {
      assert !EndsComment(s, i);
      CommentIs(s, i + 1, j);
    }
  }

  lemma {:induction false} CommentMeans(s: string, i: nat)
    requires i <= |s|
    ensures forall k :: i <= k < CommentEnd(s, i) ==> !EndsComment(s, k)
    ensures CommentEnd(s, i) < |s| ==> EndsComment(s, CommentEnd(s, i))
    decreases |s| - i
  {
    if i < |s| && !(s[i] == '*' && i + 1 < |s| && s[i + 1] == '/') {
      assert !EndsComment(s, i);
      CommentMeans(s, i + 1);
    }
  }

  lemma {:induction false} IdIs(s: string, i: nat, j: nat, ids: set<char>)
    requires i <= j <= |s| && (forall k :: i <= k < j ==> s[k] in ids) && (j < |s| ==> s[j] !in ids)
    ensures IdEnd(s, i, ids) == j
    decreases |s| - i
  {
    if i < j { IdIs(s, i + 1, j, ids); }
  }

  lemma {:induction false} IdMeans(s: string, i: nat, ids: set<char>)
    requires i <= |s|
    ensures forall k :: i <= k < IdEnd(s, i, ids) ==> s[k] in ids
    ensures IdEnd(s, i, ids) < |s| ==> s[IdEnd(s, i, ids)] !in ids
    decreases |s| - i
  {
    if i < |s| && s[i] in ids { IdMeans(s, i + 1, ids); }
  }

  // ---------------------------------------------------------------- keywords

  lemma LowerIs(w: string, x: string)
    requires forall i :: 0 <= i < |x| ==> Lower(x[i]) == x[i]
    ensures InLower(w) == x <==> SameName(w, x)
  {
    if SameName(w, x) {
      assert InLower(w) == x;
    }
  }

  /** The word of the scanner is the keyword in any case. */
  lemma WordMeans(w: string)
    ensures Word(w) == Keyword(w)
  {
    LowerIs(w, "create");
    LowerIs(w, "trigger");
    LowerIs(w, "temp");
    LowerIs(w, "temporary");
    LowerIs(w, "end");
    LowerIs(w, "explain");
    hide SameName;
  }

  // ---------------------------------------------------------------- one piece

  /** The scanner takes exactly the piece and gives it its meaning. */
  lemma LexPiece(p: Piece, rest: string, ids: set<char>)
    requires Proper(p, ids) && Apart(p, rest, ids)
    ensures |Text(p)| > 0 && |Text(p) + rest| > 0
    ensures Lex(Text(p) + rest, 0, ids) == Next(Meaning(p), |Text(p)|)
  {
    hide SkipTo, CommentEnd, IdEnd, Word, Keyword;
    var s := Text(p) + rest;
    match p {
      case Semicolon =>
      case Blank(c) =>
      case Symbol(c) => assert s[0] == c && (rest != "" ==> s[1] == rest[0]);
      case Block(body) => LexBlock(body, rest, ids);
      case Line(body) => LexLine(body, rest, ids);
      case Quoted(open, body) => LexQuoted(open, body, rest, ids);
      case Ident(w) => LexWord(w, rest, ids);
    }
  }

  lemma LexBlock(body: string, rest: string, ids: set<char>)
    requires NoEnd(body)
    ensures Lex(Text(Block(body)) + rest, 0, ids) == Next(WS, |body| + 4)
  {
    var s := Text(Block(body)) + rest;
    assert s[0] == '/' && s[1] == '*' && s[|body| + 2] == '*' && s[|body| + 3] == '/';
    assert forall k :: 2 <= k < |body| + 2 ==> s[k] == body[k - 2];
    forall k | 2 <= k < |body| + 2 ensures !EndsComment(s, k) {
      if k < |body| + 1 { assert s[k] == body[k - 2] && s[k + 1] == body[k - 1]; }
    }
    CommentIs(s, 2, |body| + 2);
  }

  lemma LexLine(body: string, rest: string, ids: set<char>)
    requires '\n' !in body
    ensures Lex(Text(Line(body)) + rest, 0, ids) == Next(WS, |body| + 3)
  {
    var s := Text(Line(body)) + rest;
    assert s[0] == '-' && s[1] == '-' && s[|body| + 2] == '\n';
    assert forall k :: 2 <= k < |body| + 2 ==> s[k] == body[k - 2];
    SkipIs(s, 0, |body| + 2, '\n');
  }

  lemma LexQuoted(open: char, body: string, rest: string, ids: set<char>)
    requires open in OPENING && Closer(open) !in body
    ensures Lex(Text(Quoted(open, body)) + rest, 0, ids) == Next(OTHER, |body| + 2)
  {
    var s := Text(Quoted(open, body)) + rest;
    assert s[0] == open && s[|body| + 1] == Closer(open);
    assert forall k :: 1 <= k < |body| + 1 ==> s[k] == body[k - 1];
    SkipIs(s, 1, |body| + 1, Closer(open));
  }

  lemma LexWord(w: string, rest: string, ids: set<char>)
    requires Proper(Ident(w), ids) && Apart(Ident(w), rest, ids)
    ensures |w + rest| > 0 && Lex(w + rest, 0, ids) == Next(Keyword(w), |w|)
  {
    var s := w + rest;
    assert forall k :: 0 <= k < |w| ==> s[k] == w[k];
    assert rest != "" ==> s[|w|] == rest[0];
    IdIs(s, 1, |w|, ids);
    assert s[0..|w|] == w;
    WordMeans(w);
    hide Word, Keyword, IdEnd;
  }

  // ---------------------------------------------------------------- texts

  function TextAll(ps: seq<Piece>, tail: string): string {
    if ps == [] then tail else Text(ps[0]) + TextAll(ps[1..], tail)
  }

  function Meanings(ps: seq<Piece>): (ts: seq<Token>)
    ensures |ts| == |ps|
  {
    if ps == [] then [] else [Meaning(ps[0])] + Meanings(ps[1..])
  }

  predicate ProperAll(ps: seq<Piece>, tail: string, ids: set<char>) {
    ps == [] || (Proper(ps[0], ids) && Apart(ps[0], TextAll(ps[1..], tail), ids) && ProperAll(ps[1..], tail, ids))
  }

  /** A "--" comment without a line end. */
  predicate OpenLine(tail: string) {
    |tail| >= 2 && tail[0] == '-' && tail[1] == '-' && '\n' !in tail
  }

  /** A quote or a block comment that is not closed. */
  predicate Unfinished(tail: string) {
    || (|tail| >= 1 && tail[0] in OPENING && Closer(tail[0]) !in tail[1..])
    || (|tail| >= 2 && tail[0] == '/' && tail[1] == '*' && NoEnd(tail[2..]))
  }

  lemma LexOpenLine(tail: string, ids: set<char>)
    requires OpenLine(tail)
    ensures Lex(tail, 0, ids) == InComment
  {
    SkipIs(tail, 0, |tail|, '\n');
  }

  lemma LexUnfinished(tail: string, ids: set<char>)
    requires Unfinished(tail)
    ensures tail != "" && Lex(tail, 0, ids) == Broken
  {
    if tail[0] in OPENING && Closer(tail[0]) !in tail[1..] {
      forall k | 1 <= k < |tail| ensures tail[k] != Closer(tail[0]) { assert tail[k] == tail[1..][k - 1]; }
      SkipIs(tail, 1, |tail|, Closer(tail[0]));
    } else {
      forall k | 2 <= k < |tail| ensures !EndsComment(tail, k) {
        if k + 1 < |tail| { assert tail[2..][k - 2] == tail[k] && tail[2..][k - 1] == tail[k + 1]; }
      }
      CommentIs(tail, 2, |tail|);
    }
  }

  /** The tokens of a text are the meanings of its pieces, and the scan fails exactly at an unfinished tail. */
  lemma {:induction false} ScanPieces(ps: seq<Piece>, tail: string, ids: set<char>)
    requires ProperAll(ps, tail, ids) && (tail == "" || OpenLine(tail) || Unfinished(tail))
    ensures Scan(TextAll(ps, tail), 0, ids) == (Meanings(ps), !Unfinished(tail))
    decreases |ps|
  {
    hide Lex;
    if ps == [] {
      if OpenLine(tail) { LexOpenLine(tail, ids); }
      if Unfinished(tail) { LexUnfinished(tail, ids); }
    } else {
      var first, rest := Text(ps[0]), TextAll(ps[1..], tail);
      LexPiece(ps[0], rest, ids);
      ScanPieces(ps[1..], tail, ids);
      ScanShift(first, rest, 0, ids);
      hide Text, Meaning, Proper, Apart, Unfinished, OpenLine;
    }
  }

  // ---------------------------------------------------------------- every text falls into pieces

  /** The piece that the scanner has taken. */
  lemma FirstPiece(s: string, ids: set<char>) returns (p: Piece)
    requires s != "" && Lex(s, 0, ids).Next?
    ensures var end := Lex(s, 0, ids).end;
      0 < end <= |s| && Proper(p, ids) && Text(p) == s[..end] && Apart(p, s[end..], ids)
  {
    var c := s[0];
    if c == ';' {
      p := Semicolon;
    } else if c in WHITE {
      p := Blank(c);
    } else if c == '/' && |s| > 1 && s[1] == '*' {
      p := BlockPiece(s, ids);
    } else if c == '-' && |s| > 1 && s[1] == '-' {
      p := LinePiece(s, ids);
    } else if c in OPENING {
      p := QuotedPiece(s, ids);
    } else if c != '/' && c != '-' && c in ids {
      p := WordPiece(s, ids);
    } else {
      p := Symbol(c);
    }
    hide SkipTo, CommentEnd, IdEnd, Word;
  }

  lemma BlockPiece(s: string, ids: set<char>) returns (p: Piece)
    requires |s| > 1 && s[0] == '/' && s[1] == '*' && Lex(s, 0, ids).Next?
    ensures var end := Lex(s, 0, ids).end;
      0 < end <= |s| && Proper(p, ids) && Text(p) == s[..end] && Apart(p, s[end..], ids)
  {
    var j := CommentEnd(s, 2);
    CommentMeans(s, 2);
    p := Block(s[2..j]);
    forall i | 0 <= i && i + 1 < j - 2
      ensures !(s[2..j][i] == '*' && s[2..j][i + 1] == '/')
    {
      assert !EndsComment(s, i + 2);
      assert s[i + 2] == s[2..j][i] && s[i + 3] == s[2..j][i + 1];
    }
    assert s[..j + 2] == "/*" + s[2..j] + "*/";
  }

  lemma LinePiece(s: string, ids: set<char>) returns (p: Piece)
    requires |s| > 1 && s[0] == '-' && s[1] == '-' && Lex(s, 0, ids).Next?
    ensures var end := Lex(s, 0, ids).end;
      0 < end <= |s| && Proper(p, ids) && Text(p) == s[..end] && Apart(p, s[end..], ids)
  {
    var j := SkipTo(s, 0, '\n');
    SkipMeans(s, 0, '\n');
    assert SkipTo(s, 0, '\n') == SkipTo(s, 1, '\n') == SkipTo(s, 2, '\n');
    p := Line(s[2..j]);
    assert s[..j + 1] == "--" + s[2..j] + "\n";
  }

  lemma QuotedPiece(s: string, ids: set<char>) returns (p: Piece)
    requires |s| > 0 && s[0] in OPENING && Lex(s, 0, ids).Next?
    ensures var end := Lex(s, 0, ids).end;
      0 < end <= |s| && Proper(p, ids) && Text(p) == s[..end] && Apart(p, s[end..], ids)
  {
    var j := SkipTo(s, 1, Closer(s[0]));
    SkipMeans(s, 1, Closer(s[0]));
    p := Quoted(s[0], s[1..j]);
    assert s[..j + 1] == [s[0]] + s[1..j] + [Closer(s[0])];
  }

  lemma WordPiece(s: string, ids: set<char>) returns (p: Piece)
    requires |s| > 0 && Plain(s[0]) && s[0] in ids
    ensures Lex(s, 0, ids).Next?
    ensures var end := Lex(s, 0, ids).end;
      0 < end <= |s| && Proper(p, ids) && Text(p) == s[..end] && Apart(p, s[end..], ids)
  {
    var j := IdEnd(s, 1, ids);
    IdMeans(s, 1, ids);
    p := Ident(s[..j]);
    assert s[0..j] == s[..j];
    hide Word;
  }

  lemma BrokenTail(s: string, ids: set<char>)
    requires s != "" && Lex(s, 0, ids).Broken?
    ensures Unfinished(s)
  {
    if s[0] == '/' {
      CommentMeans(s, 2);
      forall i | 0 <= i && i + 1 < |s| - 2
        ensures !(s[2..][i] == '*' && s[2..][i + 1] == '/')
      {
        assert !EndsComment(s, i + 2);
      assert s[i + 2] == s[2..][i] && s[i + 3] == s[2..][i + 1];
      }
    } else {
      SkipMeans(s, 1, Closer(s[0]));
    }
  }

  lemma CommentTail(s: string, ids: set<char>)
    requires s != "" && Lex(s, 0, ids).InComment?
    ensures OpenLine(s)
  {
    SkipMeans(s, 0, '\n');
  }

  /** Every text is a sequence of pieces, with an open comment or quote behind them or nothing. */
  lemma {:induction false} Pieces(s: string, ids: set<char>) returns (ps: seq<Piece>, tail: string)
    ensures TextAll(ps, tail) == s && ProperAll(ps, tail, ids) && (tail == "" || OpenLine(tail) || Unfinished(tail))
    decreases |s|
  {
    if s == "" {
      ps, tail := [], "";
    } else {
      match Lex(s, 0, ids) {
        case Broken =>
          BrokenTail(s, ids);
          ps, tail := [], s;
        case InComment =>
          CommentTail(s, ids);
          ps, tail := [], s;
        case Next(_, end) =>
          var p := FirstPiece(s, ids);
          hide Lex, Proper, Apart, Text, OpenLine, Unfinished;
          var rest;
          rest, tail := Pieces(s[end..], ids);
          ps := [p] + rest;
          assert ps[1..] == rest && s == s[..end] + s[end..];
      }
    }
  }

  // ---------------------------------------------------------------- completeness of a text

  /** The meanings of the pieces decide: a text is complete exactly when nothing is left open, a "--"
      comment aside, and the automaton ends in START. */
  lemma CompletePieces(ps: seq<Piece>, tail: string, ids: set<char>)
    requires ProperAll(ps, tail, ids) && (tail == "" || OpenLine(tail) || Unfinished(tail))
    ensures IsComplete(TextAll(ps, tail), ids) <==> !Unfinished(tail) && Drive(INVALID, Meanings(ps)) == START
  {
    ScanPieces(ps, tail, ids);
    hide Scan, Drive, TextAll, ProperAll, Unfinished, OpenLine;
  }

  // ---------------------------------------------------------------- what does not matter

  lemma {:induction false} TextJoin(a: seq<Piece>, b: seq<Piece>, tail: string)
    ensures TextAll(a + b, tail) == TextAll(a, TextAll(b, tail))
  {
    hide Text, Meaning;
    if a == [] {
      assert a + b == b;
    } else {
      TextJoin(a[1..], b, tail);
      assert (a + b)[1..] == a[1..] + b;
    }
  }

  lemma {:induction false} MeaningsJoin(a: seq<Piece>, b: seq<Piece>)
    ensures Meanings(a + b) == Meanings(a) + Meanings(b)
  {
    hide Text, Meaning;
    if a == [] {
      assert a + b == b;
    } else {
      MeaningsJoin(a[1..], b);
      assert (a + b)[1..] == a[1..] + b;
    }
  }

  /** A text with no letter in common with a keyword or a comment in front: what pieces before may meet. */
  predicate Neutral(rest: string, ids: set<char>) {
    rest == "" || (rest[0] !in ids && rest[0] != '*' && rest[0] != '-')
  }

  /** Pieces stay proper when what follows them is exchanged for another text that starts alike, or for
      one that none of them could take in. */
  lemma {:induction false} ProperFront(a: seq<Piece>, rest: string, rest': string, ids: set<char>)
    requires ProperAll(a, rest, ids)
    requires Neutral(rest', ids) || (rest != "" && rest' != "" && rest[0] == rest'[0])
    ensures ProperAll(a, rest', ids)
  {
    if a != [] {
      ProperFront(a[1..], rest, rest', ids);
      if a[1..] != [] { TextNotEmpty(a[1], ids); }
      hide Proper, Text, ProperAll;
      assert a[1..] == [] ==> TextAll(a[1..], rest) == rest && TextAll(a[1..], rest') == rest';
      if a[1..] != [] {
        SameStart(a[1..], rest, rest', ids);
      }
    }
  }

  lemma TextNotEmpty(p: Piece, ids: set<char>)
    requires Proper(p, ids)
    ensures Text(p) != ""
  {
  }

  lemma SameStart(ps: seq<Piece>, rest: string, rest': string, ids: set<char>)
    requires ps != [] && Text(ps[0]) != ""
    ensures TextAll(ps, rest) != "" && TextAll(ps, rest') != "" && TextAll(ps, rest)[0] == TextAll(ps, rest')[0]
  {
  }

  lemma {:induction false} ProperSplit(a: seq<Piece>, b: seq<Piece>, tail: string, ids: set<char>)
    ensures ProperAll(a + b, tail, ids) <==> ProperAll(a, TextAll(b, tail), ids) && ProperAll(b, tail, ids)
  {
    if a == [] {
      assert a + b == b;
    } else {
      ProperSplit(a[1..], b, tail, ids);
      assert (a + b)[1..] == a[1..] + b;
      TextJoin(a[1..], b, tail);
    }
  }

  /** One piece may be exchanged for another of the same meaning, if what stands before and behind it
      keeps its distance. */
  lemma Exchange(a: seq<Piece>, p: Piece, q: Piece, z: seq<Piece>, tail: string, ids: set<char>)
    requires ProperAll(a + [p] + z, tail, ids) && (tail == "" || OpenLine(tail) || Unfinished(tail))
    requires Proper(q, ids) && Apart(q, TextAll(z, tail), ids) && Meaning(p) == Meaning(q)
    requires Neutral(Text(q), ids) || (Text(p) != "" && Text(p)[0] == Text(q)[0])
    ensures ProperAll(a + [q] + z, tail, ids)
    ensures IsComplete(TextAll(a + [p] + z, tail), ids) <==> IsComplete(TextAll(a + [q] + z, tail), ids)
  {
    assert a + [p] + z == a + ([p] + z) && a + [q] + z == a + ([q] + z);
    assert ([p] + z)[1..] == z && ([q] + z)[1..] == z;
    ProperSplit(a, [p] + z, tail, ids);
    ProperSplit(a, [q] + z, tail, ids);
    TextNotEmpty(q, ids);
    ProperFront(a, TextAll([p] + z, tail), TextAll([q] + z, tail), ids);
    MeaningsJoin(a, [p] + z);
    MeaningsJoin(a, [q] + z);
    CompletePieces(a + [p] + z, tail, ids);
    CompletePieces(a + [q] + z, tail, ids);
    hide IsComplete, Drive, Proper, Apart, Meaning, Unfinished, OpenLine;
  }

  /** A comment between two pieces counts as a blank. */
  lemma CommentIsBlank(a: seq<Piece>, p: Piece, z: seq<Piece>, tail: string, ids: set<char>)
    requires p.Block? || p.Line?
    requires ProperAll(a + [p] + z, tail, ids) && (tail == "" || OpenLine(tail) || Unfinished(tail)) && ' ' !in ids
    ensures IsComplete(TextAll(a + [p] + z, tail), ids) <==> IsComplete(TextAll(a + [Blank(' ')] + z, tail), ids)
  {
    Exchange(a, p, Blank(' '), z, tail, ids);
  }

  /** What stands inside quotes does not matter, semicolons included. */
  lemma QuotesHide(a: seq<Piece>, open: char, body: string, body': string, z: seq<Piece>, tail: string, ids: set<char>)
    requires ProperAll(a + [Quoted(open, body)] + z, tail, ids) && (tail == "" || OpenLine(tail) || Unfinished(tail))
    requires open in OPENING && Closer(open) !in body'
    ensures
      IsComplete(TextAll(a + [Quoted(open, body)] + z, tail), ids) <==>
      IsComplete(TextAll(a + [Quoted(open, body')] + z, tail), ids)
  {
    Exchange(a, Quoted(open, body), Quoted(open, body'), z, tail, ids);
  }

  /** A word may be exchanged for the same word in other letters, and a word that is no keyword for any
      other that is none, if both start alike or the new one cannot be taken in by what stands before. */
  lemma WordsCount(a: seq<Piece>, w: string, w': string, z: seq<Piece>, tail: string, ids: set<char>)
    requires ProperAll(a + [Ident(w)] + z, tail, ids) && (tail == "" || OpenLine(tail) || Unfinished(tail))
    requires Proper(Ident(w'), ids) && Keyword(w) == Keyword(w')
    requires a == [] || !(a[|a| - 1].Ident? || a[|a| - 1].Symbol?)
    ensures
      IsComplete(TextAll(a + [Ident(w)] + z, tail), ids) <==> IsComplete(TextAll(a + [Ident(w')] + z, tail), ids)
  {
    var p, q := Ident(w), Ident(w');
    assert a + [p] + z == a + ([p] + z) && a + [q] + z == a + ([q] + z);
    assert ([p] + z)[1..] == z && ([q] + z)[1..] == z;
    ProperSplit(a, [p] + z, tail, ids);
    ProperSplit(a, [q] + z, tail, ids);
    SameApart(w, w', TextAll(z, tail), ids);
    ProperBefore(a, TextAll([p] + z, tail), TextAll([q] + z, tail), ids);
    MeaningsJoin(a, [p] + z);
    MeaningsJoin(a, [q] + z);
    CompletePieces(a + [p] + z, tail, ids);
    CompletePieces(a + [q] + z, tail, ids);
    hide IsComplete, Drive, Proper, Apart, Keyword, Unfinished, OpenLine;
  }

  lemma SameApart(w: string, w': string, rest: string, ids: set<char>)
    ensures Apart(Ident(w), rest, ids) <==> Apart(Ident(w'), rest, ids)
  {
  }

  lemma {:induction false} ProperBefore(a: seq<Piece>, rest: string, rest': string, ids: set<char>)
    requires ProperAll(a, rest, ids) && (a == [] || !(a[|a| - 1].Ident? || a[|a| - 1].Symbol?))
    ensures ProperAll(a, rest', ids)
  {
    if a != [] {
      ProperBefore(a[1..], rest, rest', ids);
      if a[1..] != [] {
        TextNotEmpty(a[1], ids);
        SameStart(a[1..], rest, rest', ids);
      }
    }
  }

  /** The whole text: it is complete exactly when it falls into pieces, with at most a "--" comment left
      open, whose meanings lead the automaton to START. */
  lemma CompleteMeans(s: string, ids: set<char>)
    ensures IsComplete(s, ids) <==>
      exists ps, tail {:trigger TextAll(ps, tail)} :: TextAll(ps, tail) == s && ProperAll(ps, tail, ids)
        && (tail == "" || OpenLine(tail)) && Drive(INVALID, Meanings(ps)) == START
  {
    if IsComplete(s, ids) {
      var ps, tail := Pieces(s, ids);
      CompletePieces(ps, tail, ids);
      hide *;
      assert TextAll(ps, tail) == s;
    } else {
      forall ps, tail {:trigger TextAll(ps, tail)}
        | TextAll(ps, tail) == s && ProperAll(ps, tail, ids) && (tail == "" || OpenLine(tail))
        ensures Drive(INVALID, Meanings(ps)) != START
      {
        CompletePieces(ps, tail, ids);
        NotBoth(tail);
        hide *;
      }
    }
  }

  lemma NotBoth(tail: string)
    ensures tail == "" || OpenLine(tail) ==> !Unfinished(tail)
  {
  }

  lemma {:induction false} DriveSolid(state: nat, tokens: seq<Token>)
    requires state <= SEEN_END
    ensures Drive(state, tokens) == Drive(state, Solid(tokens))
    decreases |tokens|
  {
    if tokens != [] {
      var before, last := tokens[..|tokens| - 1], tokens[|tokens| - 1];
      DriveSolid(state, before);
      DriveLast(state, tokens);
      if last != WS {
        DriveOn(state, Solid(before), last);
      } else {
        assert Solid(before) + [] == Solid(before);
      }
    }
  }

  lemma {:induction false} DriveOthers(others: seq<Token>)
    requires forall i :: 0 <= i < |others| ==> others[i] == OTHER
    ensures Drive(IN_TRIGGER, others) == IN_TRIGGER
  {
    if others != [] { DriveOthers(others[1..]); }
  }

  lemma DriveShort(state: nat, a: Token, b: Token)
    requires state <= SEEN_END
    ensures Drive(state, [a]) == Trans(state, a) && Drive(state, [a, b]) == Trans(Trans(state, a), b)
  {
    DriveNone(state);
    DriveOn(state, [], a);
    DriveOn(state, [a], b);
    assert [] + [a] == [a] && [a] + [b] == [a, b];
    hide Trans, Drive;
  }

  lemma TriggerTable()
    ensures Drive(INVALID, [CREATE, TRIGGER]) == IN_TRIGGER && Drive(IN_TRIGGER, [SEMI]) == SEEN_SEMI
    ensures Drive(SEEN_SEMI, [END, SEMI]) == START && Drive(SEEN_SEMI, [SEMI]) == SEEN_SEMI
  {
    DriveShort(INVALID, CREATE, TRIGGER);
    DriveShort(IN_TRIGGER, SEMI, SEMI);
    DriveShort(SEEN_SEMI, END, SEMI);
    DriveShort(SEEN_SEMI, SEMI, SEMI);
    hide Drive;
  }

  /** A text that is CREATE TRIGGER, words that are no keywords, and a semicolon, comments and white space
      aside, is complete with END and another semicolon behind it, and is not with the semicolon alone. */
  lemma TriggerNeedsItsEnd(ps: seq<Piece>, others: seq<Token>, end: seq<Token>, ids: set<char>)
    requires ProperAll(ps, "", ids) && forall i :: 0 <= i < |others| ==> others[i] == OTHER
    requires end == [END, SEMI] || end == [SEMI]
    requires Solid(Meanings(ps)) == [CREATE, TRIGGER] + others + [SEMI] + end
    ensures IsComplete(TextAll(ps, ""), ids) <==> end == [END, SEMI]
  {
    NotBoth("");
    assert INVALID == 0 && START == 1 && IN_TRIGGER == 5 && SEEN_SEMI == 6 && SEEN_END == 7;
    hide *;
    CompletePieces(ps, "", ids);
    DriveSolid(INVALID, Meanings(ps));
    DriveJoin(INVALID, [CREATE, TRIGGER] + others + [SEMI], end);
    DriveJoin(INVALID, [CREATE, TRIGGER] + others, [SEMI]);
    DriveJoin(INVALID, [CREATE, TRIGGER], others);
    DriveOthers(others);
    TriggerTable();
  }
}
