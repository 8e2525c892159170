/** Names compared without regard to case. */
module Names {

  /** The table sqlite3UpperToLower. */
  function UpperToLower(c: nat): (r: nat)
    ensures c < 256 ==> r < 256
  {
    if 65 <= c <= 90 then c + 32 else c
  }

  function Lower(c: char): char {
    UpperToLower(c as nat) as char
  }

  predicate SameName(a: string, b: string) {
    |a| == |b| && forall i :: 0 <= i < |a| ==> Lower(a[i]) == Lower(b[i])
  }

  /** Ends every C string and so occurs in none. */
  const NUL := '\0'

  /** sqlite3StrICmp: the difference of the first letters that differ, ignoring case. */
  method StrICmp(zLeft: string, zRight: string) returns (c: int)
    requires NUL !in zLeft && NUL !in zRight
    ensures c == 0 <==> SameName(zLeft, zRight)
  {
    var i := 0;
    while true
      invariant i <= |zLeft| && i <= |zRight|
      invariant forall k :: 0 <= k < i ==> Lower(zLeft[k]) == Lower(zRight[k])
      decreases |zLeft| - i
    {
      var a := if i < |zLeft| then zLeft[i] else NUL;
      var b := if i < |zRight| then zRight[i] else NUL;
      c := Lower(a) as int - Lower(b) as int;
      if c != 0 || a == NUL {
        return;
      }
      i := i + 1;
    }
  }
}
