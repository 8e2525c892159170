/** The open-addressing hash table that one form of a Bitvec uses: constants, the probing
    discipline, and the facts that make every probe stop at the right slot. */
module BitvecHash {
  import opened Integers

  const BITVEC_USIZE: nat := 496
  const BITVEC_NBIT: nat := 3968
  const BITVEC_NINT: nat := 124
  const BITVEC_MXHASH: nat := 62
  const BITVEC_NPTR: nat := 62

  /** The slot where the probe for value v (1-based) starts. */
  function Home(v: nat): (h: nat)
    requires v > 0
    ensures h < BITVEC_NINT
  {
    (v - 1) % BITVEC_NINT
  }

  function NextSlot(h: nat): (r: nat)
    requires h < BITVEC_NINT
    ensures r < BITVEC_NINT
  {
    if h + 1 >= BITVEC_NINT then 0 else h + 1
  }

  /** k lies on the cyclic walk that starts at h and ends at s, both included. */
  predicate OnWalk(h: nat, k: nat, s: nat) {
    k < BITVEC_NINT && if h <= s then h <= k <= s else k >= h || k <= s
  }

  /** Number of steps from slot h to slot z when walking upwards and wrapping. */
  function Distance(h: nat, z: nat): (d: nat)
    requires h < BITVEC_NINT && z < BITVEC_NINT
  {
    if h <= z then z - h else z + BITVEC_NINT - h
  }

  /** No value is stored twice, and no stored value is cut off from its home by an empty slot. */
  ghost predicate WellProbed(H: seq<nat>) {
    && |H| == BITVEC_NINT
    && (forall s, t :: 0 <= s < |H| && 0 <= t < |H| && H[s] != 0 && H[s] == H[t] ==> s == t)
    && (forall s, k :: 0 <= s < |H| && 0 <= k < |H| && H[s] != 0 && OnWalk(Home(H[s]), k, s) ==> H[k] != 0)
  }

  ghost function Values(H: seq<nat>): set<nat> {
    set s | 0 <= s < |H| && H[s] != 0 :: H[s]
  }

  ghost function NonZero(H: seq<nat>): nat {
    if H == [] then 0 else NonZero(H[..|H| - 1]) + if H[|H| - 1] != 0 then 1 else 0
  }

  /** The walk from v's home up to, not including, slot h met only other values. */
  ghost predicate Walked(H: seq<nat>, v: nat, h: nat)
    requires v > 0 && |H| == BITVEC_NINT && h < BITVEC_NINT
  {
    forall k :: 0 <= k < |H| && OnWalk(Home(v), k, h) && k != h ==> H[k] != 0 && H[k] != v
  }

  lemma {:induction false} NonZeroBound(H: seq<nat>)
    ensures NonZero(H) <= |H|
    ensures NonZero(H) == |H| <==> forall k :: 0 <= k < |H| ==> H[k] != 0
  {
    if H != [] {
      NonZeroBound(H[..|H| - 1]);
      forall k | 0 <= k < |H| - 1
        ensures H[..|H| - 1][k] == H[k]
      {}
    }
  }

  lemma {:induction false} NonZeroPrefix(H: seq<nat>, n: nat)
    requires n <= |H|
    ensures NonZero(H[..n]) <= NonZero(H)
    ensures n < |H| && H[n] != 0 ==> NonZero(H[..n]) < NonZero(H)
    decreases |H|
  {
    if n < |H| {
      assert H[..|H| - 1][..n] == H[..n];
      NonZeroPrefix(H[..|H| - 1], n);
    } else {
      assert H[..n] == H;
    }
  }

  lemma {:induction false} NonZeroFill(H: seq<nat>, h: nat, v: nat)
    requires h < |H| && H[h] == 0 && v != 0
    ensures NonZero(H[h := v]) == NonZero(H) + 1
  {
    var K := H[h := v];
    if h == |H| - 1 {
      assert K[..|H| - 1] == H[..|H| - 1];
    } else {
      assert K[..|H| - 1] == H[..|H| - 1][h := v];
      NonZeroFill(H[..|H| - 1], h, v);
    }
  }

  lemma {:induction false} NonZeroOfZeros(H: seq<nat>)
    requires forall k :: 0 <= k < |H| ==> H[k] == 0
    ensures NonZero(H) == 0
  {
    if H != [] { NonZeroOfZeros(H[..|H| - 1]); }
  }

  /** A table that is not full has an empty slot, which is what stops every probe. */
  lemma EmptySlotExists(H: seq<nat>) returns (z: nat)
    requires |H| == BITVEC_NINT && NonZero(H) < BITVEC_NINT
    ensures z < |H| && H[z] == 0
  {
    NonZeroBound(H);
    z :| 0 <= z < |H| && H[z] == 0;
  }

  /** A probe that reaches an empty slot without meeting v proves that v is absent. */
  lemma ProbeMiss(H: seq<nat>, v: nat, h: nat)
    requires WellProbed(H) && v > 0 && h < |H| && H[h] == 0 && Walked(H, v, h)
    ensures v !in Values(H)
  {
    forall s | 0 <= s < |H| && H[s] != 0
      ensures H[s] != v
    {
      assert OnWalk(Home(v), s, h) || OnWalk(Home(v), h, s);
    }
  }

  /** Storing v in the empty slot its probe found keeps the probing discipline. */
  lemma ProbeStore(H: seq<nat>, v: nat, h: nat)
    requires WellProbed(H) && v > 0 && h < |H| && H[h] == 0 && Walked(H, v, h)
    ensures WellProbed(H[h := v])
    ensures Values(H[h := v]) == Values(H) + {v}
    ensures NonZero(H[h := v]) == NonZero(H) + 1
  {
    ProbeMiss(H, v, h);
    NonZeroFill(H, h, v);
    var K := H[h := v];
    assert forall k :: 0 <= k < |H| && H[k] != 0 ==> H[k] in Values(H);
    forall s, k | 0 <= s < |K| && 0 <= k < |K| && K[s] != 0 && OnWalk(Home(K[s]), k, s)
      ensures K[k] != 0
    {
      if s == h && k != h {
        assert H[k] != 0;
      }
    }
    forall s, t | 0 <= s < |K| && 0 <= t < |K| && K[s] != 0 && K[s] == K[t]
      ensures s == t
    {
    }
    forall x
      ensures x in Values(K) <==> x in Values(H) + {v}
    {
      if x in Values(H) {
        var s :| 0 <= s < |H| && H[s] != 0 && H[s] == x;
        assert K[s] == x;
      }
      if x == v { assert K[h] == v; }
    }
  }

  lemma WalkStep(H: seq<nat>, v: nat, h: nat, z: nat)
    requires |H| == BITVEC_NINT && v > 0 && h < |H| && z < |H|
    requires Walked(H, v, h) && H[h] != 0 && H[h] != v && H[z] == 0 && OnWalk(Home(v), h, z)
    ensures OnWalk(Home(v), (h + 1) % BITVEC_NINT, z) && Walked(H, v, (h + 1) % BITVEC_NINT)
    ensures Distance((h + 1) % BITVEC_NINT, z) < Distance(h, z)
  {
    assert (h + 1) % BITVEC_NINT == NextSlot(h);
  }

  /** The probe of Test on the hash form. */
  method HashLookup(aHash: array<nat>, i: nat) returns (r: bool)
    requires aHash.Length == BITVEC_NINT && i > 0
    requires WellProbed(aHash[..]) && NonZero(aHash[..]) < BITVEC_NINT
    ensures r <==> i in Values(aHash[..])
  {
    var h: nat := Home(i);
    ghost var H := aHash[..];
    ghost var z := EmptySlotExists(H);
    while aHash[h] != 0
      invariant h < BITVEC_NINT && OnWalk(Home(i), h, z)
      invariant Walked(H, i, h)
      decreases Distance(h, z)
    {
      assert H[h] == aHash[h];
      if aHash[h] == i {
        return true;
      }
      WalkStep(H, i, h, z);
      h := (h + 1) % BITVEC_NINT;
    }
    ProbeMiss(H, i, h);
    r := false;
  }

  /** The probe of Set: either i is stored already, or h is the first empty slot from its home. */
  method HashFindOrFree(aHash: array<nat>, i: nat) returns (found: bool, h: nat)
    requires aHash.Length == BITVEC_NINT && i > 0
    requires WellProbed(aHash[..]) && NonZero(aHash[..]) < BITVEC_NINT
    ensures h < BITVEC_NINT
    ensures found <==> i in Values(aHash[..])
    ensures !found ==> aHash[h] == 0 && Walked(aHash[..], i, h)
  {
    h := Home(i);
    ghost var H := aHash[..];
    ghost var z := EmptySlotExists(H);
    while aHash[h] != 0
      invariant h < BITVEC_NINT && OnWalk(Home(i), h, z)
      invariant Walked(H, i, h)
      decreases Distance(h, z)
    {
      assert H[h] == aHash[h];
      if aHash[h] == i {
        return true, h;
      }
      WalkStep(H, i, h, z);
      h := h + 1;
      if h >= BITVEC_NINT {
        h := 0;
      }
    }
    ProbeMiss(H, i, h);
    found := false;
  }

  lemma ValuesGrow(H: seq<nat>, j: nat)
    requires j < |H|
    ensures Values(H[..j + 1]) == Values(H[..j]) + if H[j] != 0 then {H[j]} else {}
  {
    assert H[..j + 1] == H[..j] + [H[j]];
    forall x
      ensures x in Values(H[..j + 1]) <==> x in Values(H[..j]) || (H[j] != 0 && x == H[j])
    {
      if x in Values(H[..j]) {
        var s :| 0 <= s < j && H[..j][s] != 0 && H[..j][s] == x;
        assert H[..j + 1][s] == x;
      }
      if H[j] != 0 && x == H[j] {
        assert H[..j + 1][j] == x;
      }
    }
  }

  /** Clear on the hash form: every value except i is hashed again into an emptied table. */
  method HashRebuild(aHash: array<nat>, aiValues: array<nat>, i: nat) returns (nSet: nat)
    requires aHash.Length == BITVEC_NINT == aiValues.Length && aHash != aiValues
    requires WellProbed(aHash[..]) && NonZero(aHash[..]) < BITVEC_NINT
    modifies aHash, aiValues
    ensures WellProbed(aHash[..]) && nSet == NonZero(aHash[..]) < BITVEC_NINT
    ensures Values(aHash[..]) == Values(old(aHash[..])) - {i}
  {
    ghost var V := aHash[..];
    forall j | 0 <= j < BITVEC_NINT {
      aiValues[j] := aHash[j];
    }
    forall j | 0 <= j < BITVEC_NINT {
      aHash[j] := 0;
    }
    nSet := 0;
    var j := 0;
    NonZeroOfZeros(aHash[..]);
    assert WellProbed(aHash[..]) && Values(aHash[..]) == {} == Values(V[..0]);
    assert NonZero(V[..0]) == 0;
    assert aiValues[..] == V;
    hide WellProbed, NonZero;
    while j < BITVEC_NINT
      invariant 0 <= j <= BITVEC_NINT
      invariant aiValues[..] == V
      invariant WellProbed(aHash[..]) && nSet == NonZero(aHash[..]) <= NonZero(V[..j])
      invariant Values(aHash[..]) == Values(V[..j]) - {i}
    {
      ValuesGrow(V, j);
      NonZeroPrefix(V, j + 1);
      assert V[..j + 1][..j] == V[..j];
      if aiValues[j] != 0 && aiValues[j] != i {
        assert V[j] !in Values(V[..j]);
        RebuildStore(aHash, aiValues[j]);
        nSet := nSet + 1;
      }
      j := j + 1;
    }
    assert V[..j] == V;
  }

  method RebuildStore(aHash: array<nat>, v: nat)
    requires aHash.Length == BITVEC_NINT && v > 0
    requires WellProbed(aHash[..]) && NonZero(aHash[..]) < BITVEC_NINT && v !in Values(aHash[..])
    modifies aHash
    ensures WellProbed(aHash[..]) && NonZero(aHash[..]) == NonZero(old(aHash[..])) + 1
    ensures Values(aHash[..]) == Values(old(aHash[..])) + {v}
  {
    var h: nat := Home(v);
    ghost var H := aHash[..];
    ghost var z := EmptySlotExists(H);
    while aHash[h] != 0
      invariant h < BITVEC_NINT && OnWalk(Home(v), h, z)
      invariant Walked(H, v, h) && aHash[..] == H
      decreases Distance(h, z)
    {
      assert H[h] == aHash[h] && H[h] in Values(H);
      WalkStep(H, v, h, z);
      h := h + 1;
      if h >= BITVEC_NINT {
        h := 0;
      }
    }
    ProbeStore(H, v, h);
    aHash[h] := v;
    assert aHash[..] == H[h := v];
  }
}
