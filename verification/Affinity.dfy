/** sqlite3AffinityType: one pass over a declared type with a rolling hash of the last four letters. */
module Affinity {
  import Division
  import opened Integers
  import opened Names

  type Byte = n: nat | n < 256

  datatype Aff = BLOB | TEXT | NUMERIC | INTEGER | REAL

  const INT_: seq<Byte> := [105, 110, 116]          // int
  const CHAR_: seq<Byte> := [99, 104, 97, 114]      // char
  const CLOB_: seq<Byte> := [99, 108, 111, 98]      // clob
  const TEXT_: seq<Byte> := [116, 101, 120, 116]    // text
  const BLOB_: seq<Byte> := [98, 108, 111, 98]      // blob
  const REAL_: seq<Byte> := [114, 101, 97, 108]     // real
  const FLOA_: seq<Byte> := [102, 108, 111, 97]     // floa
  const DOUB_: seq<Byte> := [100, 111, 117, 98]     // doub

  /** The word stands in s at k, ignoring case. */
  ghost predicate At(word: seq<Byte>, s: seq<Byte>, k: nat) {
    k + |word| <= |s| && forall i :: 0 <= i < |word| ==> UpperToLower(s[k + i]) == word[i]
  }

  ghost predicate Occurs(word: seq<Byte>, s: seq<Byte>) {
    exists k :: At(word, s, k)
  }

  /** The documented table: the first row with a substring that occurs decides. */
  ghost function Declared(s: seq<Byte>): Aff {
    if Occurs(INT_, s) then INTEGER else WithoutInt(s)
  }

  ghost function WithoutInt(s: seq<Byte>): Aff {
    if Occurs(CHAR_, s) || Occurs(CLOB_, s) || Occurs(TEXT_, s) then TEXT
    else if Occurs(BLOB_, s) then BLOB
    else if Occurs(REAL_, s) || Occurs(FLOA_, s) || Occurs(DOUB_, s) then REAL
    else NUMERIC
  }

  ghost predicate EndsIn(word: seq<Byte>, s: seq<Byte>) {
    |word| <= |s| && At(word, s, |s| - |word|)
  }

  /** One more letter brings at most the occurrence that ends with it. */
  lemma OneMoreLetter(word: seq<Byte>, s: seq<Byte>, c: Byte)
    requires word != []
    ensures Occurs(word, s + [c]) <==> Occurs(word, s) || EndsIn(word, s + [c])
  {
    var t := s + [c];
    forall k: nat
      ensures At(word, s, k) ==> At(word, t, k)
      ensures At(word, t, k) && k + |word| <= |s| ==> At(word, s, k)
    {
      assert forall i :: 0 <= i < |s| ==> t[i] == s[i];
    }
  }

  lemma OccursInLonger(word: seq<Byte>, s: seq<Byte>, n: nat)
    requires n <= |s| && Occurs(word, s[..n])
    ensures Occurs(word, s)
  {
    var k :| At(word, s[..n], k);
    assert At(word, s, k);
  }

  // ---------------------------------------------------------------- the hash

  /** The hash after the letters of s, in 32 bits. */
  function Hash(s: seq<Byte>): (h: nat)
    ensures h < U32_LIMIT
  {
    if s == [] then 0 else (Hash(s[..|s| - 1]) * 256 + UpperToLower(s[|s| - 1])) % U32_LIMIT
  }

  function Digits(a: nat, b: nat, c: nat, d: nat): nat {
    a * 0x1000000 + b * 0x10000 + c * 0x100 + d
  }

  /** The letter i places from the end, 0 when the text is shorter than that. */
  function Back(s: seq<Byte>, i: nat): Byte {
    if i < |s| then UpperToLower(s[|s| - 1 - i]) else 0
  }

  /** The hash is the last four letters and nothing else. */
  lemma {:induction false} HashIsLastFour(s: seq<Byte>)
    ensures Hash(s) == Digits(Back(s, 3), Back(s, 2), Back(s, 1), Back(s, 0))
  {
    if s != [] {
      var p := s[..|s| - 1];
      HashIsLastFour(p);
      assert Back(s, 1) == Back(p, 0) && Back(s, 2) == Back(p, 1) && Back(s, 3) == Back(p, 2);
      DropTop(Back(p, 3), Back(p, 2), Back(p, 1), Back(p, 0), Back(s, 0));
    }
  }

  lemma DropTop(a: Byte, b: Byte, c: Byte, d: Byte, e: Byte)
    ensures (Digits(a, b, c, d) * 256 + e) % U32_LIMIT == Digits(b, c, d, e)
  {
    assert U32_LIMIT == 0x1_0000_0000;
    assert Digits(a, b, c, d) * 256 + e == a * 0x1_0000_0000 + Digits(b, c, d, e);
    Division.DivUnique(Digits(a, b, c, d) * 256 + e, U32_LIMIT, a, Digits(b, c, d, e));
  }

  lemma LastDigit(p: nat, d: Byte, q: nat, e: Byte)
    ensures p * 256 + d == q * 256 + e <==> p == q && d == e
  {
  }

  lemma SameDigits(a: Byte, b: Byte, c: Byte, d: Byte, w: Byte, x: Byte, y: Byte, z: Byte)
    ensures Digits(a, b, c, d) == Digits(w, x, y, z) <==> a == w && b == x && c == y && d == z
  {
    LastDigit(a, b, w, x);
    LastDigit(a * 256 + b, c, w * 256 + x, y);
    LastDigit((a * 256 + b) * 256 + c, d, (w * 256 + x) * 256 + y, z);
  }

  lemma LowDigits(a: Byte, b: Byte, c: Byte, d: Byte)
    ensures Digits(a, b, c, d) % 0x1000000 == Digits(0, b, c, d)
  {
    assert Digits(a, b, c, d) == a * 0x1000000 + Digits(0, b, c, d);
  }

  lemma FourLetters(s: seq<Byte>, w: Byte, x: Byte, y: Byte, z: Byte)
    requires w > 0 && x > 0 && y > 0 && z > 0
    ensures Hash(s) == Digits(w, x, y, z) <==> EndsIn([w, x, y, z], s)
  {
    HashIsLastFour(s);
    SameDigits(Back(s, 3), Back(s, 2), Back(s, 1), Back(s, 0), w, x, y, z);
    var word := [w, x, y, z];
    if |s| >= 4 {
      var k := |s| - 4;
      assert Back(s, 3) == UpperToLower(s[k]) && Back(s, 2) == UpperToLower(s[k + 1]);
      assert Back(s, 1) == UpperToLower(s[k + 2]) && Back(s, 0) == UpperToLower(s[k + 3]);
      assert word[0] == w && word[1] == x && word[2] == y && word[3] == z;
    }
  }

  lemma ThreeLetters(s: seq<Byte>, x: Byte, y: Byte, z: Byte)
    requires x > 0 && y > 0 && z > 0
    ensures Hash(s) % 0x1000000 == Digits(0, x, y, z) <==> EndsIn([x, y, z], s)
  {
    HashIsLastFour(s);
    LowDigits(Back(s, 3), Back(s, 2), Back(s, 1), Back(s, 0));
    SameDigits(0, Back(s, 2), Back(s, 1), Back(s, 0), 0, x, y, z);
    var word := [x, y, z];
    if |s| >= 3 {
      var k := |s| - 3;
      assert Back(s, 2) == UpperToLower(s[k]) && Back(s, 1) == UpperToLower(s[k + 1]);
      assert Back(s, 0) == UpperToLower(s[k + 2]);
      assert word[0] == x && word[1] == y && word[2] == z;
    }
  }

  // ---------------------------------------------------------------- the scan

  /** What one turn of the loop makes of the affinity. */
  lemma AffinityStep(s: seq<Byte>, c: Byte)
    ensures WithoutInt(s + [c]) ==
      if EndsIn(CHAR_, s + [c]) || EndsIn(CLOB_, s + [c]) || EndsIn(TEXT_, s + [c]) then TEXT
      else if EndsIn(BLOB_, s + [c]) && WithoutInt(s) in {NUMERIC, REAL} then BLOB
      else if (EndsIn(REAL_, s + [c]) || EndsIn(FLOA_, s + [c]) || EndsIn(DOUB_, s + [c]))
        && WithoutInt(s) == NUMERIC then REAL
      else WithoutInt(s)
  {
    OneMoreLetter(CHAR_, s, c);
    OneMoreLetter(CLOB_, s, c);
    OneMoreLetter(TEXT_, s, c);
    OneMoreLetter(BLOB_, s, c);
    OneMoreLetter(REAL_, s, c);
    OneMoreLetter(FLOA_, s, c);
    OneMoreLetter(DOUB_, s, c);
    hide Occurs, EndsIn;
  }

  /** The comparisons of the hash, all at once. */
  lemma HashTests(s: seq<Byte>)
    ensures Hash(s) == Digits(99, 104, 97, 114) <==> EndsIn(CHAR_, s)
    ensures Hash(s) == Digits(99, 108, 111, 98) <==> EndsIn(CLOB_, s)
    ensures Hash(s) == Digits(116, 101, 120, 116) <==> EndsIn(TEXT_, s)
    ensures Hash(s) == Digits(98, 108, 111, 98) <==> EndsIn(BLOB_, s)
    ensures Hash(s) == Digits(114, 101, 97, 108) <==> EndsIn(REAL_, s)
    ensures Hash(s) == Digits(102, 108, 111, 97) <==> EndsIn(FLOA_, s)
    ensures Hash(s) == Digits(100, 111, 117, 98) <==> EndsIn(DOUB_, s)
    ensures Hash(s) % 0x1000000 == Digits(0, 105, 110, 116) <==> EndsIn(INT_, s)
  {
    FourLetters(s, 99, 104, 97, 114);
    FourLetters(s, 99, 108, 111, 98);
    FourLetters(s, 116, 101, 120, 116);
    FourLetters(s, 98, 108, 111, 98);
    FourLetters(s, 114, 101, 97, 108);
    FourLetters(s, 102, 108, 111, 97);
    FourLetters(s, 100, 111, 117, 98);
    ThreeLetters(s, 105, 110, 116);
    hide EndsIn, Digits, Hash;
  }

  lemma NothingYet()
    ensures Hash([]) == 0 && WithoutInt([]) == NUMERIC && !Occurs(INT_, [])
  {
  }

  lemma HashOn(s: seq<Byte>, c: Byte)
    ensures Hash(s + [c]) == (Hash(s) * 256 + UpperToLower(c)) % U32_LIMIT
  {
    assert (s + [c])[..|s|] == s;
  }

  lemma IntDecides(s: seq<Byte>, n: nat)
    requires n <= |s| && EndsIn(INT_, s[..n])
    ensures Declared(s) == INTEGER
  {
    OccursInLonger(INT_, s, n);
  }

  lemma NoInt(s: seq<Byte>)
    requires !Occurs(INT_, s)
    ensures Declared(s) == WithoutInt(s)
  {
  }

  predicate IsInt(h: nat) {
    h % 0x1000000 == Digits(0, 105, 110, 116)
  }

  /** Letters that end in "int" end in no other word of the table. */
  lemma IntAlone(h: nat)
    requires IsInt(h)
    ensures h !in {Digits(99, 104, 97, 114), Digits(99, 108, 111, 98), Digits(116, 101, 120, 116),
               Digits(98, 108, 111, 98),
                   Digits(114, 101, 97, 108), Digits(102, 108, 111, 97), Digits(100, 111, 117, 98)}
  {
  }

  /** What the comparisons make of the affinity so far. */
  function Chain(h: nat, aff: Aff): Aff {
    if h == Digits(99, 104, 97, 114) || h == Digits(99, 108, 111, 98) || h == Digits(116, 101, 120, 116) then TEXT
    else if h == Digits(98, 108, 111, 98) && aff in {NUMERIC, REAL} then BLOB
    else if (h == Digits(114, 101, 97, 108) || h == Digits(102, 108, 111, 97) || h == Digits(100, 111, 117, 98))
      && aff == NUMERIC then REAL
    else aff
  }

  /** A turn of the loop, in terms of the text read so far. */
  lemma TurnMeans(s: seq<Byte>, c: Byte)
    requires !Occurs(INT_, s)
    ensures Chain(Hash(s + [c]), WithoutInt(s)) == WithoutInt(s + [c])
    ensures IsInt(Hash(s + [c])) <==> EndsIn(INT_, s + [c])
    ensures Occurs(INT_, s + [c]) <==> IsInt(Hash(s + [c]))
  {
    HashTests(s + [c]);
    AffinityStep(s, c);
    OneMoreLetter(INT_, s, c);
    hide Occurs, EndsIn, WithoutInt, Digits, Hash;
  }

  /** sqlite3AffinityType without the size estimate: the hash scan gives the documented answer. */
  method AffinityType(zIn: seq<Byte>) returns (aff: Aff)
    ensures aff == Declared(zIn)
  {
    var h: nat := 0;
    var n := 0;
    aff := NUMERIC;
    NothingYet();
    hide *;
    while n < |zIn|
      invariant n <= |zIn| && h == Hash(zIn[..n])
      invariant aff == WithoutInt(zIn[..n]) && !Occurs(INT_, zIn[..n])
    {
      var c := zIn[n];
      ghost var before := zIn[..n];
      assert zIn[..n + 1] == before + [c];
      HashOn(before, c);
      TurnMeans(before, c);
      h := (h * 256 + UpperToLower(c)) % U32_LIMIT;
      n := n + 1;
      var found;
      aff, found := Turn(h, aff);
      if found {
        IntDecides(zIn, n);
        return INTEGER;
      }
    }
    assert zIn[..n] == zIn;
    NoInt(zIn);
  }

  /** The comparisons inside the loop; found tells that it stops. */
  method Turn(h: nat, aff: Aff) returns (aff': Aff, found: bool)
    ensures found == IsInt(h) && aff' == Chain(h, aff)
  {
    hide Digits;
    aff', found := aff, false;
    if IsInt(h) {
      IntAlone(h);
    }
    if h == Digits(99, 104, 97, 114) {
      aff' := TEXT;
    } else if h == Digits(99, 108, 111, 98) {
      aff' := TEXT;
    } else if h == Digits(116, 101, 120, 116) {
      aff' := TEXT;
    } else if h == Digits(98, 108, 111, 98) && (aff == NUMERIC || aff == REAL) {
      aff' := BLOB;
    } else if h == Digits(114, 101, 97, 108) && aff == NUMERIC {
      aff' := REAL;
    } else if h == Digits(102, 108, 111, 97) && aff == NUMERIC {
      aff' := REAL;
    } else if h == Digits(100, 111, 117, 98) && aff == NUMERIC {
      aff' := REAL;
    } else if h % 0x1000000 == Digits(0, 105, 110, 116) {
      found := true;
    }
  }
}
