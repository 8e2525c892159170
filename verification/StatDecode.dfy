/** decodeIntArray: reads the numbers of a statistics text, then the words that follow them. */
module StatDecode {
  import opened StatText

  /** What is left of the text when the numbers have been read. */
  function Rest(z: string, nOut: nat): string
    decreases nOut
  {
    if z == "" || nOut == 0 then z else Rest(AfterNumber(z), nOut - 1)
  }

  // ---------------------------------------------------------------- words

  /** Length of the leading run of characters that are no spaces. */
  function WordLength(z: string): (n: nat)
    ensures n <= |z| && (n < |z| ==> z[n] == ' ')
  {
    if z == "" || z[0] == ' ' then 0 else 1 + WordLength(z[1..])
  }

  function Word(z: string): string {
    z[..WordLength(z)]
  }

  function SkipSpaces(z: string): (r: string)
    ensures |r| <= |z| && (z != "" && z[0] == ' ' ==> |r| < |z|)
  {
    if z != "" && z[0] == ' ' then SkipSpaces(z[1..]) else z
  }

  /** The words of a text, which spaces separate. */
  function Words(z: string): seq<string>
    decreases |z|
  {
    if z == "" then [] else [Word(z)] + Words(SkipSpaces(z[WordLength(z)..]))
  }

  predicate StartsWith(z: string, prefix: string) {
    |prefix| <= |z| && z[..|prefix|] == prefix
  }

  predicate HasWord(words: seq<string>, prefix: string) {
    exists i :: 0 <= i < |words| && StartsWith(words[i], prefix)
  }

  /** "sz=" and a digit */
  predicate GivesSize(z: string) {
    StartsWith(z, "sz=") && |z| > 3 && IsDigit(z[3])
  }

  function Digits(z: string): string {
    z[..DigitRun(z)]
  }

  /** The last size among the words, as the function estimates it from its digits; the old one when
      there is none. */
  function LastSize(words: seq<string>, estimate: string -> int, old_: int): int {
    if words == [] then old_
    else LastSize(words[1..], estimate, if GivesSize(words[0]) then estimate(Digits(words[0][3..])) else old_)
  }

  /** Looking at the text is looking at its first word. */
  lemma {:induction false} StartOfWord(z: string, prefix: string)
    requires ' ' !in prefix
    ensures StartsWith(z, prefix) <==> StartsWith(Word(z), prefix)
    decreases |prefix|
  {
    if prefix != "" && z != "" && z[0] == prefix[0] {
      assert ' ' !in prefix[1..];
      StartOfWord(z[1..], prefix[1..]);
      assert Word(z)[1..] == Word(z[1..]);
      Unfold(z, prefix);
      Unfold(Word(z), prefix);
    } else if prefix != "" && z != "" {
      OtherLetter(z, prefix);
      OtherLetter(Word(z), prefix);
    }
  }

  lemma OtherLetter(z: string, prefix: string)
    requires prefix != "" && (z == "" || z[0] != prefix[0])
    ensures !StartsWith(z, prefix)
  {
    if |prefix| <= |z| {
      assert z[..|prefix|][0] == z[0];
    }
  }

  lemma Unfold(z: string, prefix: string)
    requires z != "" && prefix != "" && z[0] == prefix[0]
    ensures StartsWith(z, prefix) <==> StartsWith(z[1..], prefix[1..])
  {
    if |prefix| <= |z| {
      assert z[..|prefix|] == [z[0]] + z[1..][..|prefix| - 1];
      assert prefix == [prefix[0]] + prefix[1..];
    }
  }

  lemma {:induction false} DigitsOfWord(z: string)
    ensures Digits(z) == Digits(Word(z))
  {
    if z != "" && IsDigit(z[0]) {
      DigitsOfWord(z[1..]);
      assert Word(z)[1..] == Word(z[1..]);
      assert Digits(z) == [z[0]] + Digits(z[1..]);
      assert Digits(Word(z)) == [z[0]] + Digits(Word(z[1..]));
    }
  }

  lemma SizeOfWord(z: string)
    ensures GivesSize(z) <==> GivesSize(Word(z))
    ensures GivesSize(z) ==> Digits(z[3..]) == Digits(Word(z)[3..])
  {
    StartOfWord(z, "sz=");
    if StartsWith(z, "sz=") {
      var sz := "sz=";
      assert z[0] == z[..3][0] == sz[0] && z[1] == z[..3][1] == sz[1] && z[2] == z[..3][2] == sz[2];
      assert z[1..][1..] == z[2..] && z[2..][1..] == z[3..];
      assert WordLength(z) == 1 + WordLength(z[1..]) == 2 + WordLength(z[2..]) == 3 + WordLength(z[3..]);
      assert Word(z)[3..] == Word(z[3..]);
      DigitsOfWord(z[3..]);
    }
  }

  // ---------------------------------------------------------------- the routines

  /** What the words up to here have said, and what those from here on say, is what all say. */
  ghost predicate Seen(now: bool, z: string, prefix: string, all: string) {
    now || HasWord(Words(z), prefix) <==> HasWord(Words(all), prefix)
  }

  lemma FirstWord(z: string, prefix: string)
    requires z != "" && ' ' !in prefix
    ensures HasWord(Words(z), prefix) <==>
      StartsWith(z, prefix) || HasWord(Words(SkipSpaces(z[WordLength(z)..])), prefix)
  {
    StartOfWord(z, prefix);
    ConsWord(Word(z), Words(SkipSpaces(z[WordLength(z)..])), prefix);
    hide HasWord, StartsWith;
  }

  lemma ConsWord(w: string, rest: seq<string>, prefix: string)
    ensures HasWord([w] + rest, prefix) <==> StartsWith(w, prefix) || HasWord(rest, prefix)
  {
    var words := [w] + rest;
    assert words[0] == w;
    assert forall i {:trigger words[i]} :: 0 < i < |words| ==> words[i] == rest[i - 1];
    assert forall i {:trigger rest[i]} :: 0 <= i < |rest| ==> rest[i] == words[i + 1];
    hide StartsWith;
  }

  lemma FirstSize(z: string, estimate: string -> int, sz: int)
    requires z != ""
    ensures LastSize(Words(z), estimate, sz) ==
      LastSize(Words(SkipSpaces(z[WordLength(z)..])), estimate, if GivesSize(z) then estimate(Digits(z[3..])) else sz)
  {
    SizeOfWord(z);
    assert Words(z)[1..] == Words(SkipSpaces(z[WordLength(z)..]));
  }

  lemma OneKind(z: string)
    ensures !(StartsWith(z, "unordered") && (GivesSize(z) || StartsWith(z, "noskipscan")))
    ensures !(GivesSize(z) && StartsWith(z, "noskipscan"))
  {
    var a, b, c := "unordered", "sz=", "noskipscan";
    assert a[0] == 'u' && b[0] == 's' && c[0] == 'n';
    if z != "" && z[0] != 'u' { OtherLetter(z, a); }
    if z != "" && z[0] != 's' { OtherLetter(z, b); }
    if z != "" && z[0] != 'n' { OtherLetter(z, c); }
  }

  /** The settings of an index that the words change. */
  class IndexFlags {
    var bUnordered: bool
    var noSkipScan: bool
    var szIdxRow: int

    /** The loop over the words; estimate stands for the logarithmic estimate of what sqlite3Atoi reads. */
    method ReadFlags(zIn: string, estimate: string -> int)
      modifies this
      ensures bUnordered <==> HasWord(Words(zIn), "unordered")
      ensures noSkipScan <==> HasWord(Words(zIn), "noskipscan")
      ensures szIdxRow == LastSize(Words(zIn), estimate, old(szIdxRow))
    {
      hide StartsWith, HasWord, Words, WordLength, SkipSpaces, LastSize, Digits;
      var z := zIn;
      bUnordered, noSkipScan := false, false;
      while z != ""
        invariant Seen(bUnordered, z, "unordered", zIn) && Seen(noSkipScan, z, "noskipscan", zIn)
        invariant LastSize(Words(z), estimate, szIdxRow) == LastSize(Words(zIn), estimate, old(szIdxRow))
        decreases |z|
      {
        FirstWord(z, "unordered");
        FirstWord(z, "noskipscan");
        FirstSize(z, estimate, szIdxRow);
        OneKind(z);
        if StartsWith(z, "unordered") {
          bUnordered := true;
        } else if GivesSize(z) {
          szIdxRow := estimate(Digits(z[3..]));
        } else if StartsWith(z, "noskipscan") {
          noSkipScan := true;
        }
        z := NextWord(z);
      }
      NoWords(estimate, szIdxRow);
    }
  }

  lemma NoWords(estimate: string -> int, sz: int)
    ensures Words("") == [] && LastSize([], estimate, sz) == sz
    ensures !HasWord([], "unordered") && !HasWord([], "noskipscan")
  {
  }

  method NextWord(zIn: string) returns (z: string)
    requires zIn != ""
    ensures z == SkipSpaces(zIn[WordLength(zIn)..]) && |z| < |zIn|
  {
    var k := 0;
    while k < |zIn| && zIn[k] != ' '
      invariant k <= |zIn| && WordLength(zIn) == k + WordLength(zIn[k..])
    {
      assert zIn[k..][1..] == zIn[k + 1..];
      k := k + 1;
    }
    assert WordLength(zIn) == k;
    while k < |zIn| && zIn[k] == ' '
      invariant WordLength(zIn) <= k <= |zIn| && SkipSpaces(zIn[WordLength(zIn)..]) == SkipSpaces(zIn[k..])
      invariant WordLength(zIn) == 0 && k == 0 ==> zIn[0] == ' '
    {
      assert zIn[k..][1..] == zIn[k + 1..];
      k := k + 1;
    }
    z := zIn[k..];
  }

  lemma DecodeStep(done: seq<nat>, z: string, n: nat)
    requires z != "" && n > 0
    ensures done + Decode(z, n) == (done + [Value(z[..DigitRun(z)])]) + Decode(AfterNumber(z), n - 1)
  {
  }

  lemma RestStep(z: string, n: nat)
    requires z != "" && n > 0
    ensures Rest(z, n) == Rest(AfterNumber(z), n - 1)
  {
  }

  lemma DecodeDone(z: string, n: nat)
    requires z == "" || n == 0
    ensures Decode(z, n) == [] && Rest(z, n) == z
  {
  }

  function Logs(v: seq<nat>, logEst: nat -> int): (r: seq<int>)
    ensures |r| == |v| && forall i :: 0 <= i < |v| ==> r[i] == logEst(v[i])
  {
    seq(|v|, i requires 0 <= i < |v| => logEst(v[i]))
  }

  lemma LogsOn(done: seq<nat>, v: nat, logEst: nat -> int)
    ensures Logs(done + [v], logEst) == Logs(done, logEst) + [logEst(v)] && Logs([], logEst) == []
  {
  }

  /** Storing element n behind the first n. */
  method Store<T>(a: array<T>, n: nat, x: T)
    requires n < a.Length
    modifies a
    ensures a[..n + 1] == old(a[..n]) + [x] && a[n + 1..] == old(a[n + 1..])
  {
    a[n] := x;
  }

  /** decodeIntArray: reads numbers into aOut, and their logarithms into aLog, until nOut are stored or
      the text ends; then the words for the index. */
  method DecodeIntArray(zIntArray: string, nOut: nat, aOut: array?<nat>, aLog: array?<int>, pIndex: IndexFlags?,
                        logEst: nat -> int, estimate: string -> int) returns (n: nat)
    requires (aOut != null ==> nOut <= aOut.Length) && (aLog != null ==> nOut <= aLog.Length)
    modifies if aOut != null then {aOut} else {}
    modifies if aLog != null then {aLog} else {}
    modifies if pIndex != null then {pIndex} else {}
    ensures n == |Decode(zIntArray, nOut)|
    ensures aOut != null ==> aOut[..n] == Decode(zIntArray, nOut) && aOut[n..] == old(aOut[n..])
    ensures aLog != null ==> aLog[..n] == Logs(Decode(zIntArray, nOut), logEst) && aLog[n..] == old(aLog[n..])
    ensures pIndex != null ==> var words := Words(Rest(zIntArray, nOut));
      && (pIndex.bUnordered <==> HasWord(words, "unordered"))
      && (pIndex.noSkipScan <==> HasWord(words, "noskipscan"))
      && pIndex.szIdxRow == LastSize(words, estimate, old(pIndex.szIdxRow))
  {
    hide Decode, Value, DigitRun, AfterNumber, Rest, Words, HasWord, LastSize, Logs;
    var z := zIntArray;
    ghost var done: seq<nat> := [];
    LogsOn([], 0, logEst);
    n := 0;
    while z != "" && n < nOut
      invariant n == |done| <= nOut && (aOut != null ==> aOut[..n] == done)
      invariant aLog != null ==> aLog[..n] == Logs(done, logEst)
      invariant done + Decode(z, nOut - n) == Decode(zIntArray, nOut) && Rest(z, nOut - n) == Rest(zIntArray, nOut)
      invariant aOut != null ==> aOut[n..] == old(aOut[n..])
      invariant aLog != null ==> aLog[n..] == old(aLog[n..])
      invariant pIndex != null ==> pIndex.szIdxRow == old(pIndex.szIdxRow)
    {
      DecodeStep(done, z, nOut - n);
      RestStep(z, nOut - n);
      var v;
      v, z := ReadNumber(z);
      LogsOn(done, v, logEst);
      if aOut != null {
        assert aOut[n + 1..] == aOut[n..][1..];
        Store(aOut, n, v);
        assert old(aOut[n..])[1..] == old(aOut[n + 1..]);
      }
      if aLog != null {
        assert aLog[n + 1..] == aLog[n..][1..];
        Store(aLog, n, logEst(v));
        assert old(aLog[n..])[1..] == old(aLog[n + 1..]);
      }
      n := n + 1;
      done := done + [v];
    }
    DecodeDone(z, nOut - n);
    assert done + [] == done;
    if pIndex != null {
      pIndex.ReadFlags(z, estimate);
    }
  }
}
