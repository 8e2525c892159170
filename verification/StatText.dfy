/** The text form of ANALYZE results: printing counts as space-separated decimals and reading
    them back. */
module StatText {
  import Division
  import opened Integers

  const TROWCNT_LIMIT: nat := U32_LIMIT  // tRowcnt is a u32 unless 64-bit statistics are asked for

  // ---------------------------------------------------------------- decimals

  function Digit(d: nat): (c: char)
    requires d < 10
    ensures '0' <= c <= '9'
  {
    '0' + d as char
  }

  predicate IsDigit(c: char) {
    '0' <= c <= '9'
  }

  function DigitValue(c: char): (d: nat)
    requires IsDigit(c)
    ensures d < 10
  {
    (c - '0') as nat
  }

  /** %llu */
  function Decimal(n: nat): (s: string)
    ensures |s| > 0 && forall k :: 0 <= k < |s| ==> IsDigit(s[k])
  {
    if n < 10 then [Digit(n)] else Decimal(n / 10) + [Digit(n % 10)]
  }

  function Pow10(k: nat): nat {
    if k == 0 then 1 else 10 * Pow10(k - 1)
  }

  lemma {:induction false} DecimalLength(n: nat, k: nat)
    requires k > 0 && n < Pow10(k)
    ensures |Decimal(n)| <= k
  {
    if n >= 10 { DecimalLength(n / 10, k - 1); }
  }

  lemma DecimalFits(n: nat)
    requires n < 0x1_0000_0000_0000_0000
    ensures |Decimal(n)| <= 20
  {
    assert Pow10(5) == 100_000;
    assert Pow10(10) == 10_000_000_000 by { assert Pow10(7) == 10_000_000; }
    assert Pow10(15) == 1_000_000_000_000_000 by { assert Pow10(12) == 1_000_000_000_000; }
    assert Pow10(20) == 100_000_000_000_000_000_000 by { assert Pow10(17) == 100_000_000_000_000_000; }
    DecimalLength(n, 20);
  }

  /** What decodeIntArray accumulates over a run of digits, in the width of a row count. */
  function Value(s: string): (v: nat)
    requires forall k :: 0 <= k < |s| ==> IsDigit(s[k])
    ensures v < TROWCNT_LIMIT
  {
    if s == "" then 0 else (Value(s[..|s| - 1]) * 10 + DigitValue(s[|s| - 1])) % TROWCNT_LIMIT
  }

  lemma {:induction false} ValueOfDecimal(n: nat)
    requires n < TROWCNT_LIMIT
    ensures Value(Decimal(n)) == n
  {
    var s := Decimal(n);
    if n < 10 {
      assert s[..0] == "";
      assert DigitValue(Digit(n)) == n;
    } else {
      ValueOfDecimal(n / 10);
      assert s[..|s| - 1] == Decimal(n / 10);
      assert DigitValue(Digit(n % 10)) == n % 10;
    }
  }

  // ---------------------------------------------------------------- lists

  /** Decimals separated by single spaces. */
  function Join(v: seq<nat>): string {
    if v == [] then ""
    else if |v| == 1 then Decimal(v[0])
    else Decimal(v[0]) + " " + Join(v[1..])
  }

  lemma {:induction false} JoinSnoc(v: seq<nat>, x: nat)
    requires v != []
    ensures Join(v + [x]) == Join(v) + " " + Decimal(x)
  {
    var w := v + [x];
    JoinCons(w);
    JoinCons(v);
    if |v| == 1 {
      assert w[1..] == [x];
      JoinCons([x]);
      hide Join, Decimal;
    } else {
      JoinSnoc(v[1..], x);
      assert w[1..] == v[1..] + [x];
      hide Join, Decimal;
      Regroup(Decimal(v[0]) + " ", Join(v[1..]), " " + Decimal(x));
      Regroup(Join(v[1..]), " ", Decimal(x));
      Regroup(Join(v), " ", Decimal(x));
    }
  }

  lemma JoinCons(v: seq<nat>)
    requires v != []
    ensures Join(v) == if |v| == 1 then Decimal(v[0]) else Decimal(v[0]) + " " + Join(v[1..])
  {
  }

  lemma Regroup(a: string, b: string, c: string)
    ensures a + (b + c) == a + b + c
  {
  }

  /** Length of the leading run of digits. */
  function DigitRun(z: string): (n: nat)
    ensures n <= |z| && (n < |z| ==> !IsDigit(z[n]))
    ensures forall k :: 0 <= k < n ==> IsDigit(z[k])
  {
    if z == "" || !IsDigit(z[0]) then 0 else 1 + DigitRun(z[1..])
  }

  function AfterNumber(z: string): (r: string) {
    var r := z[DigitRun(z)..];
    if r != "" && r[0] == ' ' then r[1..] else r
  }

  /** The numbers decodeIntArray stores: at most nOut, fewer when the text ends first. */
  function Decode(z: string, nOut: nat): (v: seq<nat>)
    ensures |v| <= nOut
    decreases nOut
  {
    if z == "" || nOut == 0 then []
    else [Value(z[..DigitRun(z)])] + Decode(AfterNumber(z), nOut - 1)
  }

  lemma {:induction false} DigitRunOf(s: string, t: string)
    requires forall k :: 0 <= k < |s| ==> IsDigit(s[k])
    requires t == "" || !IsDigit(t[0])
    ensures DigitRun(s + t) == |s|
  {
    if s != "" {
      assert (s + t)[1..] == s[1..] + t;
      DigitRunOf(s[1..], t);
    } else {
      assert s + t == t;
    }
  }

  /** Printing a list of counts and reading it back gives the list. */
  lemma {:induction false} DecodeJoin(v: seq<nat>)
    requires forall k :: 0 <= k < |v| ==> v[k] < TROWCNT_LIMIT
    ensures Decode(Join(v), |v|) == v
  {
    if v != [] {
      var d := Decimal(v[0]);
      var t := if |v| == 1 then "" else " " + Join(v[1..]);
      assert Join(v) == d + t;
      DigitRunOf(d, t);
      ValueOfDecimal(v[0]);
      assert (d + t)[..|d|] == d && (d + t)[|d|..] == t;
      DecodeJoin(v[1..]);
      if |v| > 1 {
        assert t[1..] == Join(v[1..]);
      } else {
        assert AfterNumber(d + t) == "";
      }
    }
  }

  // ---------------------------------------------------------------- the imperative routines

  /** sqlite3_snprintf into buf at position at: at most n-1 characters and a terminator. */
  method Snprintf(n: nat, buf: array<char>, at: nat, text: string)
    requires 0 < n && |text| < n && at + |text| < buf.Length
    modifies buf
    ensures buf[..at + |text|] == old(buf[..at]) + text && buf[at + |text|] == '\0'
  {
    forall k | 0 <= k < |text| {
      buf[at + k] := text[k];
    }
    buf[at + |text|] := '\0';
  }

  /** The estimate of rows matched by one value of the first i+1 columns. */
  function Estimate(nRow: nat, nDistinct: nat): nat
    requires nDistinct > 0
  {
    (nRow + nDistinct - 1) / nDistinct
  }

  function Estimates(nRow: nat, anDLt: seq<nat>, nKeyCol: nat): (r: seq<nat>)
    requires nKeyCol <= |anDLt|
    ensures |r| == nKeyCol && forall i :: 0 <= i < nKeyCol ==> r[i] == Estimate(nRow, anDLt[i] + 1)
  {
    seq(nKeyCol, i requires 0 <= i < nKeyCol => Estimate(nRow, anDLt[i] + 1))
  }

  /** stat_get for the stat1 row: the row count, then one estimate for each key column. */
  method StatGetStat1(nRow: nat, anDLt: seq<nat>, nKeyCol: nat) returns (zRet: array<char>, len: nat)
    requires nKeyCol <= |anDLt| && nRow < TROWCNT_LIMIT
    requires forall i :: 0 <= i < nKeyCol ==> anDLt[i] < TROWCNT_LIMIT - 1
    ensures fresh(zRet) && zRet.Length == (nKeyCol + 1) * 25
    ensures len < zRet.Length && zRet[len] == '\0'
    ensures zRet[..len] == Join([nRow] + Estimates(nRow, anDLt, nKeyCol))
  {
    zRet := new char[(nKeyCol + 1) * 25](_ => '\0');
    DecimalFits(nRow);
    ghost var all := [nRow] + Estimates(nRow, anDLt, nKeyCol);
    FirstText(nRow, all);
    hide Join, Decimal;
    assert zRet[..0] == "";
    Snprintf(24, zRet, 0, Decimal(nRow));
    var z := |Decimal(nRow)|;
    for i := 0 to nKeyCol
      invariant 0 < z <= 22 * (i + 1) && zRet[z] == '\0'
      invariant zRet[..z] == Join(all[..i + 1])
    {
      var nDistinct := anDLt[i] + 1;
      var iVal := (nRow + nDistinct - 1) / nDistinct;
      EstimateSmall(nRow, nDistinct);
      z := PrintNext(zRet, z, iVal, all, i + 1);
    }
    assert all[..nKeyCol + 1] == all;
    len := z;
  }

  lemma FirstText(x: nat, all: seq<nat>)
    requires all != [] && all[0] == x
    ensures "" + Decimal(x) == Join(all[..1])
  {
    JoinCons(all[..1]);
  }

  /** Prints a space and the next number of the list. */
  method PrintNext(zRet: array<char>, z: nat, iVal: nat, ghost all: seq<nat>, i: nat) returns (z': nat)
    requires z + 25 <= zRet.Length && iVal < TROWCNT_LIMIT
    requires 0 < i < |all| && iVal == all[i] && zRet[..z] == Join(all[..i])
    modifies zRet
    ensures z < z' <= z + 22 && zRet[z'] == '\0' && zRet[..z'] == Join(all[..i + 1])
  {
    DecimalFits(iVal);
    ghost var before := zRet[..z];
    var text := " " + Decimal(iVal);
    Snprintf(24, zRet, z, text);
    TextGrows(all, i, iVal, before, text);
    z' := z + |text|;
  }

  lemma TextGrows(all: seq<nat>, i: nat, x: nat, before: string, text: string)
    requires 0 < i < |all| && x == all[i] && before == Join(all[..i]) && text == " " + Decimal(x)
    ensures before + text == Join(all[..i + 1])
  {
    JoinSnoc(all[..i], x);
    assert all[..i] + [x] == all[..i + 1];
  }

  lemma EstimateSmall(nRow: nat, nDistinct: nat)
    requires nDistinct > 0
    ensures Estimate(nRow, nDistinct) <= nRow
  {
    Division.Below(nRow + nDistinct - 1, nRow + 1, nDistinct);
    Division.MulMono(1, nDistinct, nRow);
    assert (nRow + 1) * nDistinct == nRow * nDistinct + nDistinct;
  }

  /** What is printed after i counters, each followed by a space. */
  ghost function Spaced(v: seq<nat>): string {
    if v == [] then "" else Join(v) + " "
  }

  lemma SpacedOn(v: seq<nat>, i: nat)
    requires i < |v|
    ensures Spaced(v[..i + 1]) == Spaced(v[..i]) + (Decimal(v[i]) + " ") && Spaced(v[..0]) == "" && v[..|v|] == v
  {
    assert v[..i + 1] == v[..i] + [v[i]];
    if i > 0 {
      JoinSnoc(v[..i], v[i]);
      Regroup(Join(v[..i]) + " ", Decimal(v[i]), " ");
    } else {
      JoinCons(v[..1]);
    }
  }

  /** stat_get for neq, nlt and ndlt: the counters, without a trailing space. */
  method StatGetCounts(aCnt: seq<nat>) returns (zRet: array<char>, len: nat)
    requires aCnt != [] && forall i :: 0 <= i < |aCnt| ==> aCnt[i] < TROWCNT_LIMIT
    ensures fresh(zRet) && zRet.Length == |aCnt| * 25
    ensures len < zRet.Length && zRet[len] == '\0' && zRet[..len] == Join(aCnt)
  {
    zRet := new char[|aCnt| * 25](_ => '\0');
    var z := 0;
    SpacedOn(aCnt, 0);
    hide Join, Decimal, Spaced;
    for i := 0 to |aCnt|
      invariant 0 <= z <= 22 * i && (i > 0 ==> z > 0) && zRet[..z] == Spaced(aCnt[..i])
    {
      z := PrintCount(zRet, z, aCnt, i);
    }
    len := z - 1;
    TakeBack(zRet, z, aCnt);
  }

  /** Prints counter i and a space. */
  method PrintCount(zRet: array<char>, z: nat, aCnt: seq<nat>, i: nat) returns (z': nat)
    requires i < |aCnt| && aCnt[i] < TROWCNT_LIMIT && z + 25 <= zRet.Length && zRet[..z] == Spaced(aCnt[..i])
    modifies zRet
    ensures z < z' <= z + 22 && zRet[..z'] == Spaced(aCnt[..i + 1])
  {
    DecimalFits(aCnt[i]);
    SpacedOn(aCnt, i);
    hide Join, Decimal, Spaced;
    var text := Decimal(aCnt[i]) + " ";
    Snprintf(24, zRet, z, text);
    z' := z + |text|;
  }

  /** The last space becomes the terminator. */
  method TakeBack(zRet: array<char>, z: nat, ghost v: seq<nat>)
    requires 0 < z <= zRet.Length && v != [] && zRet[..z] == Spaced(v)
    modifies zRet
    ensures zRet[z - 1] == '\0' && zRet[..z - 1] == Join(v)
  {
    ghost var all := zRet[..z];
    WithoutLast(v, all);
    hide Spaced, Join;
    zRet[z - 1] := '\0';
    assert zRet[..z - 1] == all[..z - 1];
  }

  lemma WithoutLast(v: seq<nat>, s: string)
    requires v != [] && s == Spaced(v)
    ensures |s| > 0 && s[..|s| - 1] == Join(v)
  {
  }

  /** Reads one number and the space after it. */
  method ReadNumber(zIn: string) returns (v: nat, z: string)
    ensures v == Value(zIn[..DigitRun(zIn)]) && z == AfterNumber(zIn)
  {
    v := 0;
    var k := 0;
    while k < |zIn| && IsDigit(zIn[k])
      invariant 0 <= k <= DigitRun(zIn) && v == Value(zIn[..k])
      decreases |zIn| - k
    {
      assert zIn[..k + 1][..k] == zIn[..k];
      v := (v * 10 + DigitValue(zIn[k])) % TROWCNT_LIMIT;
      k := k + 1;
    }
    z := zIn[k..];
    if z != "" && z[0] == ' ' {
      z := z[1..];
    }
  }

  // ---------------------------------------------------------------- meaning and round trip

  /** The estimate is the row count divided by the number of distinct prefixes, rounded up. */
  lemma EstimateIsCeiling(nRow: nat, nDistinct: nat)
    requires nRow > 0 && nDistinct > 0
    ensures var e := Estimate(nRow, nDistinct);
      e >= 1 && e * nDistinct >= nRow && (e - 1) * nDistinct < nRow
  {
    var e, r := Estimate(nRow, nDistinct), (nRow + nDistinct - 1) % nDistinct;
    assert e * nDistinct + r == nRow + nDistinct - 1;
    assert (e - 1) * nDistinct == e * nDistinct - nDistinct;
    assert 0 * nDistinct == 0;
  }

  /** More distinct prefixes never raise the estimate. */
  lemma EstimateAntitone(nRow: nat, d: nat, e: nat)
    requires nRow > 0 && 0 < d <= e
    ensures Estimate(nRow, e) <= Estimate(nRow, d)
  {
    var x, y := Estimate(nRow, d), Estimate(nRow, e);
    EstimateIsCeiling(nRow, d);
    EstimateIsCeiling(nRow, e);
    if x < y {
      Division.MulMono(x, y - 1, e);
      Division.MulMono(d, e, x);
    }
  }
}
