/** The self-test interpreter for bitvecs: a small program drives a Bitvec and a plain bit array
    side by side, and the two are compared at the end. */
module BitvecTest {
  import opened Integers
  import opened BitvecHash
  import opened BitvecForms

  /** Cells taken by an instruction: opcode and count, or opcode, count, start and increment. */
  function Width(op: int): nat {
    if op == 1 || op == 2 || op == 5 then 4 else 2
  }

  /** From pc on, every instruction lies inside the array and a halt opcode is reached. */
  predicate WellFormed(ops: seq<int>, pc: nat)
    decreases |ops| - pc
  {
    pc < |ops| && (ops[pc] == 0 || (pc + Width(ops[pc]) <= |ops| && WellFormed(ops, pc + Width(ops[pc]))))
  }

  /** No instruction from pc on is opcode 5, which touches the plain array only. */
  predicate FaultFree(ops: seq<int>, pc: nat)
    requires WellFormed(ops, pc)
    decreases |ops| - pc
  {
    ops[pc] == 0 || (ops[pc] != 5 && FaultFree(ops, pc + Width(ops[pc])))
  }

  function Remaining(ops: seq<int>, pc: nat): nat {
    if pc + 1 < |ops| && ops[pc + 1] > 0 then ops[pc + 1] else 0
  }

  /** The program array after one execution of the instruction at pc. */
  function OpsAfter(ops: seq<int>, pc: nat): (r: seq<int>)
    requires WellFormed(ops, pc) && ops[pc] != 0
    ensures |r| == |ops| && r[pc] == ops[pc]
  {
    var o := if Width(ops[pc]) == 4 then ops[pc + 2 := ops[pc + 2] + ops[pc + 3]] else ops;
    o[pc + 1 := o[pc + 1] - 1]
  }

  function PcAfter(ops: seq<int>, pc: nat): nat
    requires WellFormed(ops, pc) && ops[pc] != 0
  {
    if ops[pc + 1] - 1 > 0 then pc else pc + Width(ops[pc])
  }

  /** The bit an instruction works on; masking keeps the low 31 bits of a signed integer. */
  function BitOf(sz: nat, raw: int): (b: nat)
    requires sz > 0
    ensures 1 <= b <= sz
  {
    raw % 0x8000_0000 % sz + 1
  }

  function RawOf(ops: seq<int>, pc: nat, rnd: nat -> int, tick: nat): int
    requires WellFormed(ops, pc) && ops[pc] != 0
  {
    if Width(ops[pc]) == 4 then ops[pc + 2] - 1 else rnd(tick)
  }

  function TickAfter(ops: seq<int>, pc: nat, tick: nat): nat
    requires WellFormed(ops, pc)
  {
    if Width(ops[pc]) == 4 then tick else tick + 1
  }

  lemma {:induction false} SameTail(a: seq<int>, b: seq<int>, pc: nat, from: nat)
    requires |a| == |b| && from <= pc
    requires a[if from <= |a| then from else |a|..] == b[if from <= |a| then from else |a|..]
    ensures WellFormed(a, pc) == WellFormed(b, pc)
    ensures WellFormed(a, pc) ==> FaultFree(a, pc) == FaultFree(b, pc)
    decreases |a| - pc
  {
    if pc < |a| {
      assert a[pc] == a[from..][pc - from] == b[from..][pc - from] == b[pc];
      if a[pc] != 0 && pc + Width(a[pc]) <= |a| {
        SameTail(a, b, pc + Width(a[pc]), from);
      }
    }
  }

  lemma StepKeepsForm(ops: seq<int>, pc: nat)
    requires WellFormed(ops, pc) && ops[pc] != 0
    ensures WellFormed(OpsAfter(ops, pc), PcAfter(ops, pc))
    ensures FaultFree(ops, pc) ==> FaultFree(OpsAfter(ops, pc), PcAfter(ops, pc))
  {
    var next := pc + Width(ops[pc]);
    var after := OpsAfter(ops, pc);
    assert next < |ops|;
    assert after[next..] == ops[next..];
    SameTail(ops, after, next, next);
  }

  function PlainAfter(op: int, b: nat, plain: set<nat>): set<nat> {
    if op % 2 != 0 then plain + {b} else plain - {b}
  }

  /** Opcode 5 leaves the bitvec alone. */
  function VecAfter(op: int, b: nat, vec: set<nat>): set<nat> {
    if op == 5 then vec else PlainAfter(op, b, vec)
  }

  /** The sets the program leaves: first in the plain array, then in the bitvec.
      rnd(k) is the k-th number the random generator hands out. */
  function Run(sz: nat, ops: seq<int>, pc: nat, rnd: nat -> int, tick: nat, plain: set<nat>,
               vec: set<nat>): (set<nat>, set<nat>)
    requires sz > 0 && WellFormed(ops, pc)
    decreases |ops| - pc, Remaining(ops, pc)
  {
    if ops[pc] == 0 then (plain, vec) else
      StepKeepsForm(ops, pc);
      var b := BitOf(sz, RawOf(ops, pc, rnd, tick));
      Run(sz, OpsAfter(ops, pc), PcAfter(ops, pc), rnd, TickAfter(ops, pc, tick),
          PlainAfter(ops[pc], b, plain), VecAfter(ops[pc], b, vec))
  }

  /** Without opcode 5 the two sides never drift apart. */
  lemma {:induction false} NoFaultNoDrift(sz: nat, ops: seq<int>, pc: nat, rnd: nat -> int, tick: nat, c: set<nat>)
    requires sz > 0 && WellFormed(ops, pc) && FaultFree(ops, pc)
    ensures Run(sz, ops, pc, rnd, tick, c, c).0 == Run(sz, ops, pc, rnd, tick, c, c).1
    decreases |ops| - pc, Remaining(ops, pc)
  {
    if ops[pc] != 0 {
      StepKeepsForm(ops, pc);
      var b := BitOf(sz, RawOf(ops, pc, rnd, tick));
      NoFaultNoDrift(sz, OpsAfter(ops, pc), PcAfter(ops, pc), rnd, TickAfter(ops, pc, tick), PlainAfter(ops[pc], b, c));
    }
  }

  ghost predicate PlainHolds(V: seq<bv8>, c: set<nat>) {
    forall b {:trigger b in c} :: 0 <= b < 8 * |V| ==> (b in c <==> BitAt(V, b))
  }

  method SetPlain(pV: array<bv8>, b: nat, ghost c: set<nat>)
    requires b < 8 * pV.Length && PlainHolds(pV[..], c)
    modifies pV
    ensures PlainHolds(pV[..], c + {b})
  {
    hide *;
    ghost var before := pV[..];
    pV[b / 8] := pV[b / 8] | Mask(b % 8);
    assert pV[..] == before[b / 8 := before[b / 8] | Mask(b % 8)];
    PlainAfterSet(before, pV[..], c, b);
  }

  lemma PlainAfterSet(before: seq<bv8>, after: seq<bv8>, c: set<nat>, b: nat)
    requires b < 8 * |before| && PlainHolds(before, c) && after == before[b / 8 := before[b / 8] | Mask(b % 8)]
    ensures PlainHolds(after, c + {b})
  {
    hide BitAt, Mask;
    forall k | 0 <= k < 8 * |before|
      ensures BitAt(after, k) <==> k == b || BitAt(before, k)
    {
      BitAtAfterSet(before, b, k);
    }
  }

  lemma PlainAfterClear(before: seq<bv8>, after: seq<bv8>, c: set<nat>, b: nat)
    requires b < 8 * |before| && PlainHolds(before, c) && after == before[b / 8 := before[b / 8] & !Mask(b % 8)]
    ensures PlainHolds(after, c - {b})
  {
    hide BitAt, Mask;
    forall k | 0 <= k < 8 * |before|
      ensures BitAt(after, k) <==> k != b && BitAt(before, k)
    {
      BitAtAfterClear(before, b, k);
    }
  }

  method ClearPlain(pV: array<bv8>, b: nat, ghost c: set<nat>)
    requires b < 8 * pV.Length && PlainHolds(pV[..], c)
    modifies pV
    ensures PlainHolds(pV[..], c - {b})
  {
    hide *;
    ghost var before := pV[..];
    pV[b / 8] := pV[b / 8] & !Mask(b % 8);
    assert pV[..] == before[b / 8 := before[b / 8] & !Mask(b % 8)];
    PlainAfterClear(before, pV[..], c, b);
  }

  /** Test on a possibly missing bitvec. */
  method NullableTest(p: Bitvec?, i: nat) returns (r: bool)
    requires p != null ==> p.Valid() && i < U32_LIMIT
    ensures r <==> p != null && i in p.Contents
  {
    r := false;
    if p != null {
      r := p.Test(i);
    }
  }

  /** The set or clear of one instruction, on both sides; opcode 5 skips the bitvec. */
  method ApplyBoth(p: Bitvec, pV: array<bv8>, pTmp: array<nat>, op: int, b: nat, ghost plain: set<nat>)
    requires p.Valid() && pV !in p.Repr && pTmp !in p.Repr && pTmp.Length == BITVEC_NINT
    requires pV as object != pTmp && 1 <= b <= p.iSize && b < 8 * pV.Length && PlainHolds(pV[..], plain)
    modifies p.Repr, pV, pTmp
    ensures p.Valid() && fresh(p.Repr - old(p.Repr)) && pV !in p.Repr && pTmp !in p.Repr
    ensures PlainHolds(pV[..], PlainAfter(op, b, plain))
    ensures p.Contents == VecAfter(op, b, old(p.Contents))
  {
    if op % 2 != 0 {
      SetPlain(pV, b, plain);
      if op != 5 {
        var r := p.Set(b);
      }
    } else {
      ClearPlain(pV, b, plain);
      p.Clear(b, pTmp);
    }
  }

  /** Compares the plain array with the bitvec. */
  method Compare(p: Bitvec, pV: array<bv8>, sz: nat, ghost plain: set<nat>) returns (rc: int)
    requires p.Valid() && p.iSize == sz && sz + 1 < U32_LIMIT && sz < 8 * pV.Length && PlainHolds(pV[..], plain)
    ensures 0 <= rc <= sz
    ensures rc == 0 <==> forall i :: 1 <= i <= sz ==> (i in plain <==> i in p.Contents)
    ensures rc > 0 ==>
      (rc in plain) != (rc in p.Contents) && forall i :: 1 <= i < rc ==> (i in plain <==> i in p.Contents)
  {
    var t0 := NullableTest(null, 0);
    var t1 := NullableTest(p, sz + 1);
    var t2 := NullableTest(p, 0);
    p.NothingOutside();
    rc := (if t0 then 1 else 0) + (if t1 then 1 else 0) + (if t2 then 1 else 0) + (p.iSize - sz);
    var i := 1;
    while i <= sz
      invariant 1 <= i <= sz + 1 && rc == 0
      invariant forall k :: 1 <= k < i ==> (k in plain <==> k in p.Contents)
    {
      var t := NullableTest(p, i);
      if HasBit(pV[i / 8], i % 8) != t {
        assert BitAt(pV[..], i) != t;
        return i;
      }
      assert BitAt(pV[..], i) == t;
      i := i + 1;
    }
  }

  /** Decodes the instruction at pc, counts it down, and picks the bit to work on. */
  method Fetch(aOp: array<int>, pc: nat, sz: nat, rnd: nat -> int, tick: nat) returns (i: nat, pc': nat, tick': nat)
    requires sz > 0 && WellFormed(aOp[..], pc) && aOp[pc] != 0
    modifies aOp
    ensures i + 1 == BitOf(sz, old(RawOf(aOp[..], pc, rnd, tick)))
    ensures aOp[..] == OpsAfter(old(aOp[..]), pc)
    ensures pc' == PcAfter(old(aOp[..]), pc) && tick' == TickAfter(old(aOp[..]), pc, tick)
  {
    var op := aOp[pc];
    var raw, nx;
    tick' := tick;
    if op == 1 || op == 2 || op == 5 {
      nx := 4;
      raw := aOp[pc + 2] - 1;
      aOp[pc + 2] := aOp[pc + 2] + aOp[pc + 3];
    } else {
      nx := 2;
      raw := rnd(tick);
      tick' := tick + 1;
    }
    aOp[pc + 1] := aOp[pc + 1] - 1;
    if aOp[pc + 1] > 0 {
      nx := 0;
    }
    pc' := pc + nx;
    i := raw % 0x8000_0000 % sz;
  }

  ghost predicate Bench(p: Bitvec, pV: array<bv8>, pTmp: array<nat>, aOp: array<int>, sz: nat, plain: set<nat>)
    reads p, p.Repr, pV
  {
    && p.Valid() && p.iSize == sz > 0
    && pV !in p.Repr && pTmp !in p.Repr && aOp !in p.Repr
    && pV as object != pTmp && pV as object != aOp && pTmp as object != aOp
    && pTmp.Length == BITVEC_NINT && sz < 8 * pV.Length && PlainHolds(pV[..], plain)
  }

  /** One turn of the main loop. */
  method Execute(p: Bitvec, pV: array<bv8>, pTmp: array<nat>, aOp: array<int>, sz: nat, rnd: nat -> int,
                 pc: nat, tick: nat, ghost plain: set<nat>)
    returns (pc': nat, tick': nat, ghost plain': set<nat>)
    requires Bench(p, pV, pTmp, aOp, sz, plain) && WellFormed(aOp[..], pc) && aOp[pc] != 0
    modifies p.Repr, pV, pTmp, aOp
    ensures Bench(p, pV, pTmp, aOp, sz, plain') && fresh(p.Repr - old(p.Repr))
    ensures aOp[..] == OpsAfter(old(aOp[..]), pc) && pc' == PcAfter(old(aOp[..]), pc) && WellFormed(aOp[..], pc')
    ensures tick' == TickAfter(old(aOp[..]), pc, tick)
    ensures var b := BitOf(sz, RawOf(old(aOp[..]), pc, rnd, tick));
      plain' == PlainAfter(old(aOp[pc]), b, plain) && p.Contents == VecAfter(old(aOp[pc]), b, old(p.Contents))
  {
    var op := aOp[pc];
    StepKeepsForm(aOp[..], pc);
    var i;
    i, pc', tick' := Fetch(aOp, pc, sz, rnd, tick);
    ApplyBoth(p, pV, pTmp, op, i + 1, plain);
    plain' := PlainAfter(op, i + 1, plain);
  }

  /** The main loop of the test, from a pair of equal empty sides. */
  method Interpret(p: Bitvec, pV: array<bv8>, pTmp: array<nat>, aOp: array<int>, sz: nat, rnd: nat -> int)
    returns (ghost plain: set<nat>)
    requires Bench(p, pV, pTmp, aOp, sz, {}) && p.Contents == {} && WellFormed(aOp[..], 0)
    modifies p.Repr, pV, pTmp, aOp
    ensures Bench(p, pV, pTmp, aOp, sz, plain)
    ensures (plain, p.Contents) == Run(sz, old(aOp[..]), 0, rnd, 0, {}, {})
  {
    plain := {};
    var pc: nat, tick: nat := 0, 0;
    while aOp[pc] != 0
      invariant WellFormed(aOp[..], pc)
      invariant Bench(p, pV, pTmp, aOp, sz, plain) && fresh(p.Repr - old(p.Repr))
      invariant Run(sz, aOp[..], pc, rnd, tick, plain, p.Contents) == Run(sz, old(aOp[..]), 0, rnd, 0, {}, {})
      decreases aOp.Length - pc, Remaining(aOp[..], pc)
    {
      pc, tick, plain := Execute(p, pV, pTmp, aOp, sz, rnd, pc, tick, plain);
    }
  }

  /** Runs the program and reports 0, or the first bit on which the two sides differ. */
  method BuiltinTest(sz: nat, aOp: array<int>, rnd: nat -> int) returns (rc: int)
    requires 0 < sz < 0x8000_0000 && WellFormed(aOp[..], 0)
    modifies aOp
    ensures var (plain, vec) := old(Run(sz, aOp[..], 0, rnd, 0, {}, {}));
      && 0 <= rc <= sz
      && (rc == 0 <==> forall i :: 1 <= i <= sz ==> (i in plain <==> i in vec))
      && (rc > 0 ==> (rc in plain) != (rc in vec) && forall i :: 1 <= i < rc ==> (i in plain <==> i in vec))
    ensures old(FaultFree(aOp[..], 0)) ==> rc == 0
  {
    var pBitvec := new Bitvec(sz);
    var pV := new bv8[(sz + 7) / 8 + 1](_ => 0);
    var pTmpSpace := new nat[BITVEC_NINT];
    if FaultFree(aOp[..], 0) {
      NoFaultNoDrift(sz, aOp[..], 0, rnd, 0, {});
    }
    ghost var plain := Interpret(pBitvec, pV, pTmpSpace, aOp, sz, rnd);
    rc := Compare(pBitvec, pV, sz, plain);
  }
}
