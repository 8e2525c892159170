/** The Bitvec object: one set of page numbers kept as a bitmap, a hash table or a tree. */
module BitvecForms {
  import opened Integers
  import opened BitvecHash

  // ---------------------------------------------------------------- bits of the bitmap

  function Mask(k: nat): bv8
    requires k < 8
  {
    (1 as bv8) << k
  }

  predicate HasBit(b: bv8, k: nat)
    requires k < 8
  {
    b & Mask(k) != 0
  }

  lemma BitSet(b: bv8, k: nat, j: nat)
    requires k < 8 && j < 8
    ensures HasBit(b | Mask(k), j) <==> j == k || HasBit(b, j)
  {
    MaskTable();
  }

  lemma BitCleared(b: bv8, k: nat, j: nat)
    requires k < 8 && j < 8
    ensures HasBit(b & !Mask(k), j) <==> j != k && HasBit(b, j)
  {
    MaskTable();
  }

  lemma MaskTable()
    ensures Mask(0) == 1 && Mask(1) == 2 && Mask(2) == 4 && Mask(3) == 8
    ensures Mask(4) == 16 && Mask(5) == 32 && Mask(6) == 64 && Mask(7) == 128
  {
  }

  // ---------------------------------------------------------------- the three forms

  /** Bits handled by each sub-bitmap once the table of a bitvec of this size is split. */
  function SubSize(iSize: nat): (d: nat)
    ensures iSize > BITVEC_NBIT ==> 0 < d < iSize && iSize <= BITVEC_NPTR * d
  {
    (iSize + BITVEC_NPTR - 1) / BITVEC_NPTR
  }

  function BinOf(i: nat, d: nat): nat
    requires i > 0 && d > 0
  {
    (i - 1) / d
  }

  /** Position of bit i inside its sub-bitmap, again numbered from 1. */
  function RestOf(i: nat, d: nat): (r: nat)
    requires i > 0 && d > 0
    ensures 1 <= r <= d
  {
    (i - 1) % d + 1
  }

  lemma BinInRange(i: nat, d: nat)
    requires 1 <= i <= BITVEC_NPTR * d
    ensures BinOf(i, d) < BITVEC_NPTR
  {
  }

  /** Bin and position together name exactly one bit. */
  lemma BinRestUnique(i: nat, j: nat, d: nat)
    requires i > 0 && j > 0 && d > 0 && BinOf(i, d) == BinOf(j, d) && RestOf(i, d) == RestOf(j, d)
    ensures i == j
  {
    assert i - 1 == d * BinOf(i, d) + (RestOf(i, d) - 1);
    assert j - 1 == d * BinOf(j, d) + (RestOf(j, d) - 1);
  }

  ghost predicate BitmapHolds(map8: seq<bv8>, iSize: nat, c: set<nat>)
    requires iSize <= 8 * |map8|
  {
    forall i {:trigger i in c} :: i in c <==> 1 <= i <= iSize && BitAt(map8, i - 1)
  }

  /** Bit n of a bitmap. */
  predicate BitAt(map8: seq<bv8>, n: nat)
    requires n < 8 * |map8|
  {
    HasBit(map8[n / 8], n % 8)
  }

  ghost predicate HashHolds(H: seq<nat>, nSet: nat, iSize: nat, c: set<nat>) {
    && WellProbed(H)
    && nSet == NonZero(H) < BITVEC_NINT
    && Values(H) == c
    && (forall i :: i in c ==> 1 <= i <= iSize)
  }

  ghost predicate TreeHolds(parts: seq<set<nat>>, iSize: nat, d: nat, c: set<nat>)
    requires d > 0
  {
    forall i {:trigger i in c} :: i in c <==>
      1 <= i <= iSize && BinOf(i, d) < |parts| && RestOf(i, d) in parts[BinOf(i, d)]
  }

  lemma TreeAfterSet(parts: seq<set<nat>>, iSize: nat, d: nat, c: set<nat>, i: nat)
    requires d > 0 && 1 <= i <= iSize && BinOf(i, d) < |parts| && TreeHolds(parts, iSize, d, c)
    ensures TreeHolds(parts[BinOf(i, d) := parts[BinOf(i, d)] + {RestOf(i, d)}], iSize, d, c + {i})
  {
    forall j {:trigger j in c}
      ensures j in c + {i} <==>
        1 <= j <= iSize && BinOf(j, d) < |parts| &&
        RestOf(j, d) in parts[BinOf(i, d) := parts[BinOf(i, d)] + {RestOf(i, d)}][BinOf(j, d)]
    {
      if 1 <= j <= iSize && BinOf(j, d) == BinOf(i, d) && RestOf(j, d) == RestOf(i, d) {
        BinRestUnique(i, j, d);
      }
    }
  }

  lemma TreeAfterClear(parts: seq<set<nat>>, iSize: nat, d: nat, c: set<nat>, i: nat)
    requires d > 0 && 1 <= i <= iSize && BinOf(i, d) < |parts| && TreeHolds(parts, iSize, d, c)
    ensures TreeHolds(parts[BinOf(i, d) := parts[BinOf(i, d)] - {RestOf(i, d)}], iSize, d, c - {i})
  {
    forall j {:trigger j in c}
      ensures j in c - {i} <==>
        1 <= j <= iSize && BinOf(j, d) < |parts| &&
        RestOf(j, d) in parts[BinOf(i, d) := parts[BinOf(i, d)] - {RestOf(i, d)}][BinOf(j, d)]
    {
      if 1 <= j <= iSize && BinOf(j, d) == BinOf(i, d) && RestOf(j, d) == RestOf(i, d) {
        BinRestUnique(i, j, d);
      }
    }
  }

  class Bitvec {
    const iSize: nat
    var nSet: nat
    var iDivisor: nat
    const aBitmap: array<bv8>
    const aHash: array<nat>
    const apSub: array<Bitvec?>
    ghost var Contents: set<nat>
    ghost var Parts: seq<set<nat>>  // in the tree form, the contents of each sub-bitmap
    ghost var Repr: set<object>

    ghost predicate Valid()
      reads this, Repr
      decreases Repr
      ensures Valid() ==> this in Repr
    {
      && this in Repr && aBitmap in Repr && aHash in Repr && apSub in Repr
      && iSize < U32_LIMIT
      && aBitmap.Length == BITVEC_USIZE && aHash.Length == BITVEC_NINT && apSub.Length == BITVEC_NPTR
      && if iSize <= BITVEC_NBIT then
           iDivisor == 0 && BitmapHolds(aBitmap[..], iSize, Contents)
         else if iDivisor == 0 then
           HashHolds(aHash[..], nSet, iSize, Contents)
         else
           TreeValid()
    }

    ghost predicate TreeValid()
      requires this in Repr && apSub in Repr && apSub.Length == BITVEC_NPTR && iSize > BITVEC_NBIT
      reads this, Repr
      decreases Repr, 0
    {
      && iDivisor == SubSize(iSize)
      && (forall b :: 0 <= b < BITVEC_NPTR && apSub[b] != null ==>
            && apSub[b] in Repr && apSub[b].Repr <= Repr - {this, aBitmap, aHash, apSub}
            && apSub[b].iSize == iDivisor && apSub[b].Valid())
      && (forall b, c :: 0 <= b < c < BITVEC_NPTR && apSub[b] != null && apSub[c] != null ==>
            apSub[b].Repr !! apSub[c].Repr)
      && |Parts| == BITVEC_NPTR
      && (forall b :: 0 <= b < BITVEC_NPTR ==> Parts[b] == if apSub[b] == null then {} else apSub[b].Contents)
      && TreeHolds(Parts, iSize, iDivisor, Contents)
    }

    /** An empty bitvec for the bits 1..iSize. */
    constructor (iSize: nat)
      requires iSize < U32_LIMIT
      ensures Valid() && fresh(Repr)
      ensures Contents == {} && this.iSize == iSize
    {
      this.iSize := iSize;
      nSet, iDivisor := 0, 0;
      aBitmap := new bv8[BITVEC_USIZE](_ => 0);
      aHash := new nat[BITVEC_NINT](_ => 0);
      apSub := new Bitvec?[BITVEC_NPTR](_ => null);
      Contents, Parts := {}, [];
      new;
      Repr := {this, aBitmap, aHash, apSub};
      NonZeroOfZeros(aHash[..]);
    }

    /** Membership. The argument is any u32: 0 wraps to the largest index and is out of range. */
    method Test(i0: nat) returns (r: bool)
      requires Valid() && i0 < U32_LIMIT
      ensures r <==> i0 in Contents
    {
      var i: nat := (i0 + U32_LIMIT - 1) % U32_LIMIT;
      NothingOutside();
      if i >= iSize {
        return false;
      }
      assert i == i0 - 1;
      r := TestBit(i);
    }

    /** The descent from the root to the leaf that has bit i0, counted from 0. */
    method TestBit(i0: nat) returns (r: bool)
      requires Valid() && i0 < iSize
      ensures r <==> i0 + 1 in Contents
    {
      hide *;
      var i: nat := i0;
      var p: Bitvec := this;
      while p.iDivisor != 0
        invariant p.Valid() && i < p.iSize
        invariant i + 1 in p.Contents <==> i0 + 1 in Contents
        decreases p.iSize
      {
        p.Descend(i + 1);
        var bin := i / p.iDivisor;
        i := i % p.iDivisor;
        if p.apSub[bin] == null {
          return false;
        }
        p := p.apSub[bin];
      }
      r := p.TestLeaf(i);
    }

    /** Membership in a bitmap or a hash table. */
    method TestLeaf(i: nat) returns (r: bool)
      requires Valid() && iDivisor == 0 && i < iSize
      ensures r <==> i + 1 in Contents
    {
      if iSize <= BITVEC_NBIT {
        r := HasBit(aBitmap[i / 8], i % 8);
        assert (i + 1) in Contents <==> BitAt(aBitmap[..], i);
      } else {
        r := HashLookup(aHash, i + 1);
      }
    }

    /** One level of the descent: the bin of bit i answers for it. */
    lemma Descend(i: nat)
      requires Valid() && iDivisor != 0 && 1 <= i <= iSize
      ensures iSize > BITVEC_NBIT && BinOf(i, iDivisor) < apSub.Length == BITVEC_NPTR
      ensures BinOf(i, iDivisor) == (i - 1) / iDivisor && RestOf(i, iDivisor) == (i - 1) % iDivisor + 1
      ensures var s := apSub[BinOf(i, iDivisor)];
        if s == null then i !in Contents
        else s.Valid() && s.iSize == iDivisor < iSize && s.Repr <= Repr
             && (RestOf(i, iDivisor) in s.Contents <==> i in Contents)
    {
      BinInRange(i, iDivisor);
    }

    lemma NothingOutside()
      requires Valid()
      ensures forall i :: i in Contents ==> 1 <= i <= iSize
    {
    }

    /** Adds bit i. Allocation is assumed to succeed, so the result code is always 0. */
    method Set(i: nat) returns (rc: int)
      requires Valid() && 1 <= i <= iSize
      modifies Repr
      ensures Valid() && fresh(Repr - old(Repr))
      ensures Contents == old(Contents) + {i} && rc == 0
      ensures old(iDivisor) != 0 ==> iDivisor == old(iDivisor)
      decreases iSize, if iDivisor == 0 then 1 else 0
    {
      if iSize > BITVEC_NBIT && iDivisor != 0 {
        rc := SetInSub(i);
      } else if iSize <= BITVEC_NBIT {
        var at := (i - 1) / 8;
        aBitmap[at] := aBitmap[at] | Mask((i - 1) % 8);
        Contents := Contents + {i};
        BitmapAfterSet(old(aBitmap[..]), aBitmap[..], iSize, old(Contents), i);
        rc := 0;
      } else {
        var found, h := HashFindOrFree(aHash, i);
        if found {
          assert Contents == Contents + {i};
          return 0;
        }
        // An empty home slot tolerates a nearly full table; a collision splits at half full.
        if nSet >= BITVEC_NINT - 1 || (nSet >= BITVEC_MXHASH && h != Home(i)) {
          rc := Split(i);
        } else {
          ProbeStore(aHash[..], i, h);
          nSet := nSet + 1;
          assert aHash[..][h := i] == old(aHash[..])[h := i];
          aHash[h] := i;
          assert aHash[..] == old(aHash[..])[h := i];
          Contents := Contents + {i};
          rc := 0;
        }
      }
    }

    /** Creates the sub-bitmap of a bin when it is missing; the set is unchanged. */
    method EnsureSub(bin: nat)
      requires Valid() && iSize > BITVEC_NBIT && iDivisor != 0 && bin < BITVEC_NPTR
      modifies apSub, this`Repr
      ensures Valid() && fresh(Repr - old(Repr))
      ensures apSub[bin] != null
    {
      if apSub[bin] == null {
        var sub := new Bitvec(iDivisor);
        apSub[bin] := sub;
        Repr := Repr + sub.Repr;
      }
    }

    /** The tree form while the sub-bitmap of one bin has just been changed on its own:
        everything but that bin's entry in Repr and Parts is up to date. */
    ghost predicate Detached(bin: nat, others: set<object>)
      reads this, apSub, apSub[..], set b, o | 0 <= b < apSub.Length && apSub[b] != null && o in apSub[b].Repr :: o
    {
      && iSize > BITVEC_NBIT && iSize < U32_LIMIT && iDivisor == SubSize(iSize)
      && aBitmap.Length == BITVEC_USIZE && aHash.Length == BITVEC_NINT && apSub.Length == BITVEC_NPTR
      && |Parts| == BITVEC_NPTR && TreeHolds(Parts, iSize, iDivisor, Contents)
      && bin < BITVEC_NPTR && apSub[bin] != null
      && {this, aBitmap, aHash, apSub} <= others && apSub[bin].Repr !! others
      && apSub[bin].Valid() && apSub[bin].iSize == iDivisor
      && (forall b :: 0 <= b < BITVEC_NPTR && b != bin && apSub[b] != null ==>
            && apSub[b] in others && apSub[b].Repr <= others - {this, aBitmap, aHash, apSub}
            && apSub[b].iSize == iDivisor && apSub[b].Valid())
      && (forall b, c :: 0 <= b < c < BITVEC_NPTR && b != bin && c != bin && apSub[b] != null && apSub[c] != null ==>
            apSub[b].Repr !! apSub[c].Repr)
      && (forall b :: 0 <= b < BITVEC_NPTR && b != bin ==>
            Parts[b] == if apSub[b] == null then {} else apSub[b].Contents)
    }

    /** Takes the changed sub-bitmap back into the books. */
    ghost method Adopt(bin: nat, others: set<object>, c: set<nat>)
      requires Detached(bin, others)
      requires TreeHolds(Parts[bin := apSub[bin].Contents], iSize, iDivisor, c)
      modifies this`Repr, this`Parts, this`Contents
      ensures Valid() && Contents == c && Repr == others + apSub[bin].Repr
    {
      Repr, Parts, Contents := others + apSub[bin].Repr, Parts[bin := apSub[bin].Contents], c;
    }

    lemma Detach(bin: nat)
      requires Valid() && iSize > BITVEC_NBIT && iDivisor != 0 && bin < BITVEC_NPTR && apSub[bin] != null
      ensures Detached(bin, Repr - apSub[bin].Repr)
      ensures Parts[bin] == apSub[bin].Contents
    {
    }

    /** Sets a bit of one sub-bitmap; nothing else of the tree moves. */
    method SetPart(bin: nat, k: nat, ghost others: set<object>) returns (rc: int)
      requires Detached(bin, others) && 1 <= k <= iDivisor
      modifies apSub[bin].Repr
      ensures Detached(bin, others) && fresh(apSub[bin].Repr - old(apSub[bin].Repr))
      ensures apSub[bin].Contents == old(apSub[bin].Contents) + {k} && rc == 0
      decreases iSize, 0, 0
    {
      var sub := apSub[bin];
      rc := sub.Set(k);
    }

    method SetInSub(i: nat) returns (rc: int)
      requires Valid() && 1 <= i <= iSize && iSize > BITVEC_NBIT && iDivisor != 0
      modifies Repr
      ensures Valid() && fresh(Repr - old(Repr))
      ensures Contents == old(Contents) + {i} && rc == 0 && iDivisor == old(iDivisor)
      decreases iSize, 0, 1
    {
      BinInRange(i, iDivisor);
      var bin := (i - 1) / iDivisor;
      EnsureSub(bin);
      Detach(bin);
      ghost var others := Repr - apSub[bin].Repr;
      TreeAfterSet(Parts, iSize, iDivisor, Contents, i);
      rc := SetPart(bin, (i - 1) % iDivisor + 1, others);
      Adopt(bin, others, Contents + {i});
    }

    /** Turns a crowded table into an empty tree; the stored values are handed back. */
    method BecomeTree() returns (aiValues: array<nat>)
      requires Valid() && iSize > BITVEC_NBIT && iDivisor == 0
      modifies this, apSub
      ensures Valid() && iDivisor != 0 && Contents == {} && Repr == old(Repr)
      ensures fresh(aiValues) && aiValues[..] == old(aHash[..])
    {
      aiValues := new nat[BITVEC_NINT];
      forall j | 0 <= j < BITVEC_NINT {
        aiValues[j] := aHash[j];
      }
      forall b | 0 <= b < BITVEC_NPTR {
        apSub[b] := null;
      }
      iDivisor := (iSize + BITVEC_NPTR - 1) / BITVEC_NPTR;
      Contents, Parts := {}, seq(BITVEC_NPTR, _ => {});
    }

    /** Re-hash: the values of the table and the new bit move into sub-bitmaps. */
    method Split(i: nat) returns (rc: int)
      requires Valid() && 1 <= i <= iSize && iSize > BITVEC_NBIT && iDivisor == 0
      modifies Repr
      ensures Valid() && fresh(Repr - old(Repr))
      ensures Contents == old(Contents) + {i} && rc == 0
      decreases iSize, 1, 0
    {
      ghost var H, size := aHash[..], iSize;
      var aiValues := BecomeTree();
      rc := Set(i);
      var j := 0;
      while j < BITVEC_NINT
        invariant 0 <= j <= BITVEC_NINT && rc == 0
        invariant Valid() && iDivisor != 0 && fresh(Repr - old(Repr)) && aiValues !in Repr
        invariant aiValues.Length == BITVEC_NINT && aiValues[..] == H
        invariant Contents == Values(H[..j]) + {i}
      {
        ValuesGrow(H, j);
        if aiValues[j] != 0 {
          assert H[j] in Values(H);
          var r := Set(aiValues[j]);
          rc := if r != 0 then r else rc;
        }
        j := j + 1;
      }
      assert H[..j] == H;
    }

    method ClearPart(bin: nat, k: nat, pBuf: array<nat>, ghost others: set<object>)
      requires Detached(bin, others) && 1 <= k <= iDivisor
      requires pBuf.Length == BITVEC_NINT && pBuf !in others && pBuf !in apSub[bin].Repr
      modifies apSub[bin].Repr, pBuf
      ensures Detached(bin, others) && apSub[bin].Repr == old(apSub[bin].Repr)
      ensures apSub[bin].Contents == old(apSub[bin].Contents) - {k}
      decreases iSize, 0
    {
      apSub[bin].Clear(k, pBuf);
    }

    /** Removes bit i; pBuf is scratch space for rebuilding a hash table. */
    method Clear(i: nat, pBuf: array<nat>)
      requires Valid() && 1 <= i <= iSize && pBuf.Length == BITVEC_NINT && pBuf !in Repr
      modifies Repr, pBuf
      ensures Valid() && Repr == old(Repr)
      ensures Contents == old(Contents) - {i}
      decreases iSize, 1
    {
      if iDivisor != 0 {
        BinInRange(i, iDivisor);
        var bin := (i - 1) / iDivisor;
        if apSub[bin] == null {
          assert i !in Contents;
          assert Contents == Contents - {i};
          return;
        }
        Detach(bin);
        ghost var others := Repr - apSub[bin].Repr;
        TreeAfterClear(Parts, iSize, iDivisor, Contents, i);
        ClearPart(bin, (i - 1) % iDivisor + 1, pBuf, others);
        Adopt(bin, others, Contents - {i});
      } else if iSize <= BITVEC_NBIT {
        var at := (i - 1) / 8;
        aBitmap[at] := aBitmap[at] & !Mask((i - 1) % 8);
        BitmapAfterClear(old(aBitmap[..]), aBitmap[..], iSize, Contents, i);
        Contents := Contents - {i};
      } else {
        nSet := HashRebuild(aHash, pBuf, i);
        Contents := Contents - {i};
      }
    }
  }

  lemma BitAtAfterSet(before: seq<bv8>, i: nat, j: nat)
    requires i < 8 * |before| && j < 8 * |before|
    ensures BitAt(before[i / 8 := before[i / 8] | Mask(i % 8)], j) <==> j == i || BitAt(before, j)
  {
    hide HasBit, Mask;
    if j / 8 == i / 8 {
      BitSet(before[i / 8], i % 8, j % 8);
    }
  }

  lemma BitAtAfterClear(before: seq<bv8>, i: nat, j: nat)
    requires i < 8 * |before| && j < 8 * |before|
    ensures BitAt(before[i / 8 := before[i / 8] & !Mask(i % 8)], j) <==> j != i && BitAt(before, j)
  {
    hide HasBit, Mask;
    if j / 8 == i / 8 {
      BitCleared(before[i / 8], i % 8, j % 8);
    }
  }

  lemma BitmapAfterSet(before: seq<bv8>, after: seq<bv8>, iSize: nat, c: set<nat>, i: nat)
    requires 1 <= i <= iSize <= 8 * |before| && BitmapHolds(before, iSize, c)
    requires after == before[(i - 1) / 8 := before[(i - 1) / 8] | Mask((i - 1) % 8)]
    ensures BitmapHolds(after, iSize, c + {i})
  {
    hide BitAt, Mask;
    forall n | 0 <= n < iSize
      ensures BitAt(after, n) <==> n + 1 == i || BitAt(before, n)
    {
      BitAtAfterSet(before, i - 1, n);
    }
  }

  lemma BitmapAfterClear(before: seq<bv8>, after: seq<bv8>, iSize: nat, c: set<nat>, i: nat)
    requires 1 <= i <= iSize <= 8 * |before| && BitmapHolds(before, iSize, c)
    requires after == before[(i - 1) / 8 := before[(i - 1) / 8] & !Mask((i - 1) % 8)]
    ensures BitmapHolds(after, iSize, c - {i})
  {
    hide BitAt, Mask;
    forall n | 0 <= n < iSize
      ensures BitAt(after, n) <==> n + 1 != i && BitAt(before, n)
    {
      BitAtAfterClear(before, i - 1, n);
    }
  }
}
