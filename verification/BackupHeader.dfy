/** The 100-byte header of a backup: what it holds while pages are copied, and what DONE commits. */
module BackupHeader {
  import opened Division
  import opened BackupPages
  import opened BackupFinish
  import opened BackupProtocol

  /** The bytes of the header that the finishing calls write. */
  predicate Patched(x: nat, wal: bool) {
    40 <= x < 44 || (wal && 18 <= x < 20)
  }

  /** The size field: 28 to 31. */
  predicate InSize(x: nat) {
    28 <= x < 32
  }

  /** The size field of the destination holds n, or what the page says itself. */
  ghost predicate SizeOk(dest: Pages, D: nat, p: Page, n: nat)
    requires D > 0 && AllSized(dest, D) && |p| >= 512
  {
    || (forall x: nat {:trigger ByteAt(dest, D, x)} :: InSize(x) ==> ByteAt(dest, D, x) == Put4(n)[x - 28])
    || (forall x: nat {:trigger ByteAt(dest, D, x)} :: InSize(x) ==> ByteAt(dest, D, x) == p[x])
  }

  /** The header is that of the source's first page p, apart from what the finishing calls write; n is
      the number of pages of the source. */
  ghost predicate HeadCopied(dest: Pages, D: nat, p: Page, n: nat, wal: bool)
    requires D > 0 && AllSized(dest, D) && |p| >= 512
  {
    && (forall x: nat {:trigger ByteAt(dest, D, x)} :: x < 100 && !Patched(x, wal) && !InSize(x) ==>
         ByteAt(dest, D, x) == p[x])
    && SizeOk(dest, D, p, n)
  }

  /** The invariant: a live backup that has got past page 1 has its header. */
  ghost predicate HeadInv(b: Backup, src: seq<Page>, S: nat)
    requires Sized(b, src, S)
  {
    !IsFatal(b.rc) && b.bDestLocked && b.iNext > 1 && src != [] ==> HeadCopied(b.dest, b.D, src[0], |src|, b.wal)
  }

  // ---------------------------------------------------------------- page copies

  /** Copying page 1 brings the header. */
  lemma FirstPageHead(dest: Pages, D: nat, S: nat, data: Page, bUpdate: bool, nSrcPage: nat, n: nat,
                      fixedSize: bool, destRc: nat -> int, wal: bool)
    requires IsPageSize(S) && IsPageSize(D) && AllSized(dest, D) && |data| == S
    requires OnePage(dest, D, S, 1, data, bUpdate, nSrcPage, fixedSize, destRc).1 == SQLITE_OK
    requires bUpdate || n == nSrcPage
    ensures
      var r := OnePage(dest, D, S, 1, data, bUpdate, nSrcPage, fixedSize, destRc).0;
      D > 0 && HeadCopied(r, D, data, n, wal)
  {
    assert S >= 512 && D >= 512;
    var r := OnePage(dest, D, S, 1, data, bUpdate, nSrcPage, fixedSize, destRc).0;
    var out := Outgoing(data, 1, bUpdate, nSrcPage);
    hide IsPageSize, OnePage, ByteAt;
    forall x: nat {:trigger ByteAt(r, D, x)} | x < 100 ensures ByteAt(r, D, x) == out[x] {
      OnePageBytes(dest, D, S, 1, data, bUpdate, nSrcPage, fixedSize, destRc, x);
    }
    assert forall x: nat :: x < 100 && !InSize(x) ==> out[x] == data[x];
    if bUpdate {
      assert forall x: nat {:trigger ByteAt(r, D, x)} :: InSize(x) ==> ByteAt(r, D, x) == data[x];
    } else {
      assert forall x: nat :: InSize(x) ==> out[x] == Put4(nSrcPage)[x - 28];
      assert forall x: nat {:trigger ByteAt(r, D, x)} :: InSize(x) ==> ByteAt(r, D, x) == Put4(n)[x - 28];
    }
  }

  /** Copying another page leaves the header alone. */
  lemma OtherPageHead(dest: Pages, D: nat, S: nat, k: nat, data: Page, bUpdate: bool, nSrcPage: nat,
                      fixedSize: bool, destRc: nat -> int, p: Page, n: nat, wal: bool)
    requires IsPageSize(S) && IsPageSize(D) && AllSized(dest, D) && |data| == S && k > 1 && |p| >= 512
    requires OnePage(dest, D, S, k, data, bUpdate, nSrcPage, fixedSize, destRc).1 == SQLITE_OK
    requires D > 0 && HeadCopied(dest, D, p, n, wal)
    ensures
      var r := OnePage(dest, D, S, k, data, bUpdate, nSrcPage, fixedSize, destRc).0;
      HeadCopied(r, D, p, n, wal)
  {
    var r := OnePage(dest, D, S, k, data, bUpdate, nSrcPage, fixedSize, destRc).0;
    MulMono(1, k - 1, S);
    assert Base(k, S) >= S >= 512;
    hide IsPageSize, OnePage, ByteAt, Base;
    forall x: nat {:trigger ByteAt(r, D, x)} | x < 100 ensures ByteAt(r, D, x) == ByteAt(dest, D, x) {
      OnePageBytes(dest, D, S, k, data, bUpdate, nSrcPage, fixedSize, destRc, x);
    }
    SameHead(dest, r, D, p, n, wal);
  }

  lemma SameHead(dest: Pages, r: Pages, D: nat, p: Page, n: nat, wal: bool)
    requires D > 0 && AllSized(dest, D) && AllSized(r, D) && |p| >= 512 && HeadCopied(dest, D, p, n, wal)
    requires forall x: nat {:trigger ByteAt(r, D, x)} ::
      x < 100 && !Patched(x, wal) ==> ByteAt(r, D, x) == ByteAt(dest, D, x)
    ensures HeadCopied(r, D, p, n, wal)
  {
    hide ByteAt, AllSized;
    if forall x: nat {:trigger ByteAt(dest, D, x)} :: InSize(x) ==> ByteAt(dest, D, x) == Put4(n)[x - 28] {
      assert forall x: nat {:trigger ByteAt(r, D, x)} :: InSize(x) ==> ByteAt(r, D, x) == Put4(n)[x - 28];
    } else {
      assert forall x: nat {:trigger ByteAt(r, D, x)} :: InSize(x) ==> ByteAt(r, D, x) == p[x];
    }
  }

  // ---------------------------------------------------------------- one step

  /** A turn of the loop that does not fail for good keeps or brings the header. */
  lemma CopyOneHead(b: Backup, src: seq<Page>, S: nat, env: Env)
    requires Sized(b, src, S) && b.bDestLocked && b.iNext <= |src| && b.D == env.lockedD && S > 0 && b.D > 0
    requires PagesFailForGood(S, env) && |src[0]| >= 512
    requires b.iNext > 1 ==> HeadCopied(b.dest, b.D, src[0], |src|, b.wal)
    ensures var (r, rc) := CopyOne(b, src, S, env); !IsFatal(rc) ==> HeadCopied(r.dest, r.D, src[0], |src|, r.wal)
  {
    PendingIsLater(S);
    hide IsPageSize, OnePage, AllSized, HeadCopied, InPending, DestRc, PendingPage;
    var k := b.iNext;
    assert k == PendingPage(S) || InPending(Base(k, S), b.D) || !Transient(PageRc(S, env, k));
    if k != PendingPage(S) && env.srcRc(k) == SQLITE_OK {
      OnePageRc(b.dest, b.D, S, k, src[k - 1], false, |src|, b.fixedSize, env.destRc);
      var (dest, rc) := OnePage(b.dest, b.D, S, k, src[k - 1], false, |src|, b.fixedSize, env.destRc);
      if rc == SQLITE_OK {
        if k == 1 {
          FirstPageHead(b.dest, b.D, S, src[0], false, |src|, |src|, b.fixedSize, env.destRc, b.wal);
        } else {
          OtherPageHead(b.dest, b.D, S, k, src[k - 1], false, |src|, b.fixedSize, env.destRc, src[0], |src|, b.wal);
        }
      } else if !IsFatal(rc) {
        PendingIsFree(b.D, S, k, env.destRc);
        assert false;
      }
    } else if k == 1 && !IsFatal(env.srcRc(k)) {
      FirstIsNotPending(S, b.D);
      assert false;
    }
  }

  lemma FirstIsNotPending(S: nat, D: nat)
    requires IsPageSize(S) && IsPageSize(D)
    ensures !InPending(Base(1, S), D)
  {
  }

  lemma {:induction false} CopyLoopHead(b: Backup, src: seq<Page>, S: nat, left: int, rc: int, env: Env)
    requires Sized(b, src, S) && b.bDestLocked && b.D == env.lockedD && S > 0 && b.D > 0
    requires PagesFailForGood(S, env) && src != [] && |src[0]| >= 512
    requires !IsFatal(rc) && b.iNext > 1 ==> HeadCopied(b.dest, b.D, src[0], |src|, b.wal)
    ensures var (r, rc1) := CopyLoop(b, src, S, left, rc, env);
      !IsFatal(rc1) && r.iNext > 1 ==> HeadCopied(r.dest, r.D, src[0], |src|, r.wal)
    decreases |src| + 1 - b.iNext
  {
    if !(left == 0 || b.iNext > |src| || rc != SQLITE_OK) {
      CopyOneHead(b, src, S, env);
      hide Sized, HeadCopied, CopyOne, PagesFailForGood;
      var (c, rc1) := CopyOne(b, src, S, env);
      CopyLoopHead(c, src, S, left - 1, rc1, env);
    }
  }

  lemma PatchBytes(dest: Pages, D: nat, o: nat, block: Page, x: nat)
    requires 100 < D && AllSized(dest, D) && o + |block| <= 100
    ensures
      var r := PatchHeader(dest, D, o, block);
      ByteAt(r, D, x) == if o <= x < o + |block| then block[x - o] else ByteAt(dest, D, x)
  {
    DivUnique(o, D, 0, o);
    WriteBlockBytes(dest, D, o, block, x);
    hide AllSized, WriteBlock, ByteAt;
  }

  /** What the finishing calls leave at offset x, when all succeed. */
  function Finished(b: Backup, src: seq<Page>, env: Env, x: nat): byte
    requires b.bDestLocked && |env.newDb| == b.D > 0 && AllSized(b.dest, b.D)
  {
    if 40 <= x < 44 then Put4(b.iDestSchema + 1)[x - 40]
    else if b.wal && 18 <= x < 20 then 2
    else ByteAt(WithNewDb(b, src, env).dest, b.D, x)
  }

  lemma CompleteHeader(b: Backup, src: seq<Page>, S: nat, env: Env, x: nat)
    requires Sized(b, src, S) && b.bDestLocked && |env.newDb| == b.D && S > 0 && b.D > 100
    requires Complete(b, src, S, env).1 == SQLITE_DONE && EnvOk(env)
    ensures ByteAt(Complete(b, src, S, env).0.dest, b.D, x) == Finished(b, src, env, x)
  {
    var b1 := WithNewDb(b, src, env);
    var b2 := WithCookie(b1);
    PatchBytes(b1.dest, b.D, 40, Put4(b.iDestSchema + 1), x);
    if b.wal { PatchBytes(b2.dest, b.D, 18, [2, 2], x); }
    hide IsPageSize, FinalFile, AllSized, PatchHeader, ByteAt;
  }

  /** Finishing calls that fail leave only what they wrote. */
  lemma CompleteSpares(b: Backup, src: seq<Page>, S: nat, env: Env, p: Page, n: nat)
    requires Sized(b, src, S) && b.bDestLocked && |env.newDb| == b.D && S > 0 && b.D > 100 && src != []
    requires |p| >= 512 && HeadCopied(b.dest, b.D, p, n, b.wal)
    ensures HeadCopied(Complete(b, src, S, env).0.dest, b.D, p, n, b.wal)
  {
    var r := Complete(b, src, S, env).0;
    var b2 := WithCookie(b);
    forall x: nat {:trigger ByteAt(r.dest, b.D, x)} | x < 100 && !Patched(x, b.wal)
      ensures ByteAt(r.dest, b.D, x) == ByteAt(b.dest, b.D, x)
    {
      PatchBytes(b.dest, b.D, 40, Put4(b.iDestSchema + 1), x);
      if b.wal { PatchBytes(b2.dest, b.D, 18, [2, 2], x); }
    }
    SameHead(b.dest, r.dest, b.D, p, n, b.wal);
    hide IsPageSize, FinalFile, AllSized, PatchHeader, ByteAt, HeadCopied;
  }

  lemma SourceHead(src: seq<Page>, S: nat)
    requires IsPageSize(S) && SourceSized(src, S)
    ensures S > 0 && (src != [] ==> |src[0]| == S >= 512)
  {
  }

  lemma LockedSize(D: nat)
    requires IsPageSize(D)
    ensures D > 100
  {
  }

  /** A step keeps the header of a live backup, under the same condition as the rest. */
  lemma StepHead(b: Backup, src: seq<Page>, S: nat, nPage: int, env: Env)
    requires Inv(b, src, S) && HeadInv(b, src, S) && EnvOk(env) && (b.bDestLocked ==> |env.newDb| == b.D)
    requires S > 0 && env.lockedD > 0 && FailsForGood(S, env)
    ensures HeadInv(Step(b, src, S, nPage, env), src, S)
  {
    SourceHead(src, S);
    PrepareKeeps(b, src, S, env);
    hide IsPageSize, AllCopied, CopyLoop, Complete, AllSized, PageRc, HeadCopied;
    var (b1, rc1) := Prepare(b, S, env);
    if !IsFatal(b.rc) && rc1 == SQLITE_OK && src != [] {
      PreparedSizes(b, S, env);
      CopyLoopHead(b1, src, S, nPage, SQLITE_OK, env);
      var (b2, rc2) := CopyLoop(b1, src, S, nPage, SQLITE_OK, env);
      if rc2 == SQLITE_OK && b2.iNext > |src| {
        LockedSize(b2.D);
        CompleteSpares(b2, src, S, env, src[0], |src|);
      }
    }
    hide Prepare;
  }

  // ---------------------------------------------------------------- commits of the source

  /** A commit that changes the number of pages writes page 1, where the number stands. */
  predicate SizeReported(src: seq<Page>, src': seq<Page>, changed: seq<nat>) {
    |src'| != |src| ==> 1 in changed
  }

  /** While a commit is being reported: page 1 is still to come, or the header is that of the new page 1. */
  ghost predicate HeadCatching(b: Backup, S: nat, src': seq<Page>, changed: seq<nat>)
    requires IsPageSize(S) && SourceSized(src', S) && src' != []
  {
    && (b.bDestLocked ==> IsPageSize(b.D) && AllSized(b.dest, b.D))
    && (!IsFatal(b.rc) && b.iNext > 1 ==> b.bDestLocked)
    && (!IsFatal(b.rc) && b.bDestLocked && b.iNext > 1 && 1 !in changed ==>
         HeadCopied(b.dest, b.D, src'[0], |src'|, b.wal))
  }

  lemma UpdateHead(b: Backup, S: nat, src': seq<Page>, changed: seq<nat>, destRc: nat -> int)
    requires IsPageSize(S) && SourceSized(src', S) && src' != [] && changed != [] && 1 <= changed[0] <= |src'|
    requires HeadCatching(b, S, src', changed)
    requires forall q: nat {:trigger destRc(q)} :: !Transient(destRc(q))
    ensures HeadCatching(Update(b, S, changed[0], src'[changed[0] - 1], destRc), S, src', changed[1..])
  {
    var k := changed[0];
    var data := src'[k - 1];
    var r := Update(b, S, k, data, destRc);
    SourceHead(src', S);
    assert changed == [k] + changed[1..];
    if !IsFatal(r.rc) && r.bDestLocked && r.iNext > 1 && 1 !in changed[1..] {
      hide IsPageSize, OnePage, AllSized, HeadCopied;
      if k == 1 {
        FirstPageHead(b.dest, b.D, S, data, true, 0, |src'|, b.fixedSize, destRc, b.wal);
      } else if k < b.iNext {
        OtherPageHead(b.dest, b.D, S, k, data, true, 0, b.fixedSize, destRc, src'[0], |src'|, b.wal);
      }
    }
  }

  lemma {:induction false} UpdatesHead(b: Backup, S: nat, src': seq<Page>, changed: seq<nat>, destRc: nat -> int)
    requires IsPageSize(S) && SourceSized(src', S) && src' != []
    requires forall i {:trigger changed[i]} :: 0 <= i < |changed| ==> 1 <= changed[i] <= |src'|
    requires HeadCatching(b, S, src', changed)
    requires forall q: nat {:trigger destRc(q)} :: !Transient(destRc(q))
    ensures HeadCatching(Updates(b, S, src', changed, destRc), S, src', [])
    decreases |changed|
  {
    HeadFacts(b, S, src', changed);
    hide Update, HeadCatching, IsPageSize, AllSized;
    if changed != [] {
      UpdateHead(b, S, src', changed, destRc);
      HeadFacts(Update(b, S, changed[0], src'[changed[0] - 1], destRc), S, src', changed[1..]);
      UpdatesHead(Update(b, S, changed[0], src'[changed[0] - 1], destRc), S, src', changed[1..], destRc);
    }
  }

  lemma HeadFacts(b: Backup, S: nat, src': seq<Page>, changed: seq<nat>)
    requires IsPageSize(S) && SourceSized(src', S) && src' != [] && HeadCatching(b, S, src', changed)
    ensures b.bDestLocked ==> IsPageSize(b.D) && AllSized(b.dest, b.D)
    ensures !IsFatal(b.rc) && b.iNext > 1 ==> b.bDestLocked
  {
  }

  /** A commit that is reported, the number of pages included, keeps the header of every backup. */
  lemma CommitHead(b: Backup, S: nat, src: seq<Page>, src': seq<Page>, changed: seq<nat>, destRc: nat -> int)
    requires Inv(b, src, S) && HeadInv(b, src, S) && S > 0 && Reported(src, src', S, changed)
    requires SizeReported(src, src', changed) && forall q: nat {:trigger destRc(q)} :: !Transient(destRc(q))
    ensures
      var r := Told(b, S, src', changed, destRc);
      Sized(r, src', S) && HeadInv(r, src', S)
  {
    hide HeadCopied, AllCopied, AllSized, Updates, IsPageSize;
    InvSize(b, src, S);
    if src' != [] && b.isAttached {
      CatchingStarts(b, S, src, src', changed);
      hide HeadCatching;
      UpdatesHead(b, S, src', changed, destRc);
      CatchingEnds(Updates(b, S, src', changed, destRc), S, src');
    }
  }

  lemma InvSize(b: Backup, src: seq<Page>, S: nat)
    requires Inv(b, src, S)
    ensures IsPageSize(S) && Sized(b, src, S)
  {
  }

  lemma CatchingStarts(b: Backup, S: nat, src: seq<Page>, src': seq<Page>, changed: seq<nat>)
    requires Inv(b, src, S) && HeadInv(b, src, S) && S > 0 && Reported(src, src', S, changed)
    requires SizeReported(src, src', changed) && src' != []
    ensures HeadCatching(b, S, src', changed)
  {
    InvLocked(b, src, S);
    SourceHead(src, S);
    hide Inv, HeadCopied, AllCopied, AllSized, IsPageSize;
    if 1 !in changed {
      FirstPageStays(src, src', S, changed);
    }
    hide Reported, SourceSized;
  }

  lemma InvLocked(b: Backup, src: seq<Page>, S: nat)
    requires Inv(b, src, S)
    ensures IsPageSize(S) && Sized(b, src, S) && (!IsFatal(b.rc) && b.iNext > 1 ==> b.bDestLocked)
  {
  }

  lemma FirstPageStays(src: seq<Page>, src': seq<Page>, S: nat, changed: seq<nat>)
    requires IsPageSize(S) && S > 0 && Reported(src, src', S, changed) && 1 !in changed && src' != []
    ensures src != [] && src'[0] == src[0]
  {
    PendingIsLater(S);
    hide *;
    PageStays(src, src', S, changed, 1);
  }

  lemma PageStays(src: seq<Page>, src': seq<Page>, S: nat, changed: seq<nat>, k: nat)
    requires S > 0 && Reported(src, src', S, changed) && k !in changed && 1 <= k <= |src'| && k != PendingPage(S)
    ensures k <= |src| && src[k - 1] == src'[k - 1]
  {
  }

  lemma CatchingEnds(b: Backup, S: nat, src': seq<Page>)
    requires IsPageSize(S) && SourceSized(src', S) && src' != [] && HeadCatching(b, S, src', []) && b.iNext > 0
    ensures Sized(b, src', S) && HeadInv(b, src', S)
  {
    SourceHead(src', S);
    hide HeadCopied, AllSized, IsPageSize;
  }

  // ---------------------------------------------------------------- runs

  ghost predicate WorldHeads(w: World)
    requires WorldOk(w)
  {
    forall i {:trigger w.bs[i]} :: 0 <= i < |w.bs| ==> Sized(w.bs[i], w.src, w.S) && HeadInv(w.bs[i], w.src, w.S)
  }

  predicate SizeTold(w: World, e: Event) {
    e.Commit? ==> SizeReported(w.src, e.src', e.changed)
  }

  lemma EventHeads(w: World, e: Event)
    requires WorldInv(w) && WorldHeads(w) && Possible(w, e) && Fatalistic(w.S, e) && SizeTold(w, e)
    ensures WorldOk(After(w, e)) && WorldHeads(After(w, e))
  {
    EventOk(w, e);
    var r := After(w, e);
    hide IsPageSize, AllSized, AllCopied, Step, Told, HeadCopied;
    forall i {:trigger r.bs[i]} | 0 <= i < |r.bs|
      ensures Sized(r.bs[i], r.src, r.S) && HeadInv(r.bs[i], r.src, r.S)
    {
      EventHead(w, e, i);
    }
  }

  lemma EventHead(w: World, e: Event, i: nat)
    requires WorldInv(w) && WorldHeads(w) && Possible(w, e) && Fatalistic(w.S, e) && SizeTold(w, e)
    requires WorldOk(After(w, e)) && i < |After(w, e).bs|
    ensures var r := After(w, e); Sized(r.bs[i], r.src, r.S) && HeadInv(r.bs[i], r.src, r.S)
  {
    var r := After(w, e);
    hide IsPageSize, AllSized, AllCopied, Step, HeadCopied, Updates;
    assert WellFormed(r.bs[i], r.src, r.S);
    match e {
      case Begin(_, _) =>
        if i < |w.bs| { assert r.bs[i] == w.bs[i]; }
      case StepOf(j, nPage, env) =>
        if i == j {
          assert Inv(w.bs[i], w.src, w.S);
          StepHead(w.bs[i], w.src, w.S, nPage, env);
        } else {
          assert r.bs[i] == w.bs[i];
        }
      case Commit(src', changed, destRc) =>
        assert Inv(w.bs[i], w.src, w.S);
        CommitHead(w.bs[i], w.S, w.src, src', changed, destRc);
      case Restart(now, pgsz) =>
        assert Inv(w.bs[i], w.src, w.S);
        assert r.bs[i] == Restarted(w.bs[i]);
      case Finish(j) =>
        assert r.bs[i] == w.bs[if i < j then i else i + 1];
    }
  }

  ghost predicate SizesTold(w: World, es: seq<Event>)
    requires WorldOk(w) && PossibleRun(w, es)
    decreases |es|
  {
    es == [] || (SizeTold(w, es[0]) && (EventOk(w, es[0]); SizesTold(After(w, es[0]), es[1..])))
  }

  /** Over every run in which commits report a change of the number of pages, each live backup past page 1
      has the header of the source. */
  lemma {:induction false} RunKeepsHeads(w: World, es: seq<Event>)
    requires WorldInv(w) && PossibleRun(w, es) && FatalisticRun(w, es) && SizesTold(w, es) && WorldHeads(w)
    ensures WorldInv(Exec(w, es)) && WorldHeads(Exec(w, es))
    decreases |es|
  {
    hide WorldOk, Inv, After, Possible, Fatalistic, WorldHeads, SizeTold;
    if es != [] {
      EventOk(w, es[0]);
      EventKeeps(w, es[0]);
      EventHeads(w, es[0]);
      RunKeepsHeads(After(w, es[0]), es[1..]);
    }
  }

  // ---------------------------------------------------------------- what DONE commits

  function FileWord(f: seq<byte>, o: nat): nat
    requires o + 4 <= |f|
  {
    Word(f[o], f[o + 1], f[o + 2], f[o + 3])
  }

  /** The header that DONE has committed: the schema cookie is one more than the destination's was when
      it was locked, in 32 bits, and so differs from it; the file format says WAL if the destination is
      in WAL mode; the size field is the number of pages, or whatever the source says it is; and all
      else is the source's. */
  ghost predicate HeaderDone(f: seq<byte>, iDestSchema: nat, wal: bool, p: Page, n: nat)
    requires |p| >= 512
  {
    && |f| >= 512
    && FileWord(f, 40) == (iDestSchema + 1) % 0x1_0000_0000 != iDestSchema
    && (wal ==> f[18] == 2 && f[19] == 2)
    && (f[28..32] == Put4(n) || f[28..32] == p[28..32])
    && (forall x: nat {:trigger f[x]} :: x < 100 && !Patched(x, wal) && !InSize(x) ==> f[x] == p[x])
  }

  /** The state that a step which returns DONE has completed. */
  lemma DoneHeadState(b: Backup, src: seq<Page>, S: nat, nPage: int, env: Env) returns (b2: Backup)
    requires Inv(b, src, S) && HeadInv(b, src, S) && EnvOk(env) && (b.bDestLocked ==> |env.newDb| == b.D)
    requires S > 0 && env.lockedD > 0 && FailsForGood(S, env) && src != []
    requires !IsFatal(b.rc) && Step(b, src, S, nPage, env).rc == SQLITE_DONE
    ensures Sized(b2, src, S) && b2.bDestLocked && b2.D > 0 && |env.newDb| == b2.D && |src[0]| >= 512
    ensures Complete(b2, src, S, env).1 == SQLITE_DONE && HeadCopied(b2.dest, b2.D, src[0], |src|, b2.wal)
    ensures Step(b, src, S, nPage, env).file == Complete(b2, src, S, env).0.file
    ensures b2.wal == b.wal && b2.iDestSchema == Step(b, src, S, nPage, env).iDestSchema
  {
    SourceHead(src, S);
    PrepareKeeps(b, src, S, env);
    PrepareNotDone(b, S, env);
    hide IsPageSize, AllCopied, AllSized, SourceSized, CopyLoop, Complete, Inv, HeadCopied;
    var (b1, rc1) := Prepare(b, S, env);
    assert rc1 == SQLITE_OK;
    PreparedSizes(b, S, env);
    CopyLoopHead(b1, src, S, nPage, SQLITE_OK, env);
    var r := CopyLoop(b1, src, S, nPage, SQLITE_OK, env);
    b2 := r.0;
    assert r.1 == SQLITE_OK && b2.iNext > |src|;
  }

  lemma DoneHeader(b: Backup, src: seq<Page>, S: nat, nPage: int, env: Env)
    requires Inv(b, src, S) && HeadInv(b, src, S) && EnvOk(env) && (b.bDestLocked ==> |env.newDb| == b.D)
    requires S > 0 && env.lockedD > 0 && FailsForGood(S, env) && src != []
    requires !IsFatal(b.rc) && Step(b, src, S, nPage, env).rc == SQLITE_DONE
    requires b.bDestLocked ==> b.iDestSchema < 0x1_0000_0000
    ensures |src[0]| >= 512
    ensures var r := Step(b, src, S, nPage, env); HeaderDone(r.file, r.iDestSchema, b.wal, src[0], |src|)
  {
    var b2 := DoneHeadState(b, src, S, nPage, env);
    CookieFits(b, src, S, nPage, env);
    hide *;
    CompletedFile(b2, src, S, env);
    FinishedFile(b2, src, S, env);
  }

  lemma CookieFits(b: Backup, src: seq<Page>, S: nat, nPage: int, env: Env)
    requires Sized(b, src, S) && EnvOk(env) && (b.bDestLocked ==> |env.newDb| == b.D) && !IsFatal(b.rc)
    requires b.bDestLocked ==> b.iDestSchema < 0x1_0000_0000
    requires Step(b, src, S, nPage, env).rc == SQLITE_DONE
    ensures Step(b, src, S, nPage, env).iDestSchema < 0x1_0000_0000
  {
    PrepareNotDone(b, S, env);
    hide IsPageSize, AllSized, CopyLoop, Complete, WordAt;
  }

  /** The header of the file, once all finishing calls have succeeded. */
  lemma FinishedFile(b: Backup, src: seq<Page>, S: nat, env: Env)
    requires Sized(b, src, S) && b.bDestLocked && b.D > 0 && S > 0 && |env.newDb| == b.D && EnvOk(env)
    requires src != [] && |src[0]| >= 512 && b.iDestSchema < 0x1_0000_0000
    requires Complete(b, src, S, env).1 == SQLITE_DONE && HeadCopied(b.dest, b.D, src[0], |src|, b.wal)
    requires var r := Complete(b, src, S, env).0; r.file == FinalFile(r.dest, b.D, S, src)
    ensures HeaderDone(Complete(b, src, S, env).0.file, b.iDestSchema, b.wal, src[0], |src|)
  {
    LockedSize(b.D);
    var f := Complete(b, src, S, env).0.file;
    var n := b.iDestSchema + 1;
    FileLength(b, src, S, env);
    hide IsPageSize, Complete, FinalFile, AllSized, ByteAt, Sized, EnvOk;
    forall x: nat {:trigger f[x]} | x < 100 ensures f[x] == Finished(b, src, env, x) {
      FileHeader(b, src, S, env, x);
    }
    Put4Reads(n);
    DivUnique(n, 0x1_0000_0000, if n == 0x1_0000_0000 then 1 else 0, if n == 0x1_0000_0000 then 0 else n);
    SizeField(f, b, src[0], |src|, env, src);
    hide HeadCopied;
  }

  lemma SizeField(f: seq<byte>, b: Backup, p: Page, n: nat, env: Env, src: seq<Page>)
    requires b.bDestLocked && |env.newDb| == b.D > 0 && AllSized(b.dest, b.D) && |p| >= 512 && |f| >= 512 && src != []
    requires forall x: nat {:trigger f[x]} :: x < 100 ==> f[x] == Finished(b, src, env, x)
    requires HeadCopied(b.dest, b.D, p, n, b.wal)
    ensures f[28..32] == Put4(n) || f[28..32] == p[28..32]
    ensures forall x: nat {:trigger f[x]} :: x < 100 && !Patched(x, b.wal) && !InSize(x) ==> f[x] == p[x]
  {
    hide ByteAt, AllSized;
    if forall x: nat {:trigger ByteAt(b.dest, b.D, x)} :: InSize(x) ==> ByteAt(b.dest, b.D, x) == Put4(n)[x - 28] {
      assert forall i :: 0 <= i < 4 ==> f[28..32][i] == f[28 + i] == Put4(n)[i];
    } else {
      assert forall i :: 0 <= i < 4 ==> f[28..32][i] == f[28 + i] == p[28 + i] == p[28..32][i];
    }
  }

  lemma FileHeader(b: Backup, src: seq<Page>, S: nat, env: Env, x: nat)
    requires Sized(b, src, S) && b.bDestLocked && b.D > 100 && S > 0 && |env.newDb| == b.D && EnvOk(env)
    requires src != [] && Complete(b, src, S, env).1 == SQLITE_DONE && x < 100
    requires var r := Complete(b, src, S, env).0; r.file == FinalFile(r.dest, b.D, S, src)
    ensures var f := Complete(b, src, S, env).0.file; x < |f| && f[x] == Finished(b, src, env, x)
  {
    var r := Complete(b, src, S, env).0;
    CompleteHeader(b, src, S, env, x);
    HasPage(b, src, S, env);
    SourceLong(src, S);
    DivUnique(x, b.D, 0, x);
    hide FinalFile, Complete, ByteAt, AllSized, Finished;
    FileByte(r.dest, b.D, S, src, x);
  }

  lemma SourceLong(src: seq<Page>, S: nat)
    requires IsPageSize(S) && src != []
    ensures S * |src| >= 512
  {
    MulMono(1, |src|, S);
  }

  lemma HasPage(b: Backup, src: seq<Page>, S: nat, env: Env)
    requires Sized(b, src, S) && b.bDestLocked && b.D > 100 && S > 0 && |env.newDb| == b.D
    requires src != [] && Complete(b, src, S, env).1 == SQLITE_DONE && EnvOk(env)
    ensures Complete(b, src, S, env).0.dest.nPage > 0
  {
    DivUnique(40, b.D, 0, 40);
    DivUnique(18, b.D, 0, 18);
    hide IsPageSize, FinalFile, AllSized;
  }

  lemma FileLength(b: Backup, src: seq<Page>, S: nat, env: Env)
    requires Sized(b, src, S) && b.bDestLocked && b.D > 100 && S > 0 && |env.newDb| == b.D && EnvOk(env)
    requires src != [] && Complete(b, src, S, env).1 == SQLITE_DONE
    requires var r := Complete(b, src, S, env).0; r.file == FinalFile(r.dest, b.D, S, src)
    ensures |Complete(b, src, S, env).0.file| >= 512
  {
    var r := Complete(b, src, S, env).0;
    HasPage(b, src, S, env);
    SourceLong(src, S);
    assert b.D >= 512;
    DivUnique(511, b.D, 0, 511);
    hide FinalFile, Complete, ByteAt, AllSized;
    FileByte(r.dest, b.D, S, src, 511);
  }

  // ---------------------------------------------------------------- the schema cookie

  /** The cookie is noted when the destination is locked, from its bytes 40 to 43, and kept from then on. */
  lemma CookieNoted(b: Backup, src: seq<Page>, S: nat, nPage: int, env: Env)
    requires Sized(b, src, S) && EnvOk(env) && (b.bDestLocked ==> |env.newDb| == b.D)
    ensures
      var r := Step(b, src, S, nPage, env);
      r.iDestSchema ==
        if !b.bDestLocked && r.bDestLocked then WordAt(env.lockedDest, env.lockedD, 40) else b.iDestSchema
  {
    hide IsPageSize, AllSized, CopyLoop, Complete, WordAt;
  }

  /** No event changes it afterwards. */
  lemma CookieStays(w: World, e: Event, i: nat)
    requires WorldOk(w) && Possible(w, e) && i < |w.bs| && w.bs[i].bDestLocked && Moved(e, i).Some?
    ensures
      var j := Moved(e, i).value;
      j < |After(w, e).bs| && After(w, e).bs[j].bDestLocked && After(w, e).bs[j].iDestSchema == w.bs[i].iDestSchema
  {
    hide IsPageSize, AllSized, Updates, Step;
    match e {
      case StepOf(k, nPage, env) =>
        assert WellFormed(w.bs[i], w.src, w.S);
        if k == i {
          CookieNoted(w.bs[i], w.src, w.S, nPage, env);
          StaysLocked(w.bs[i], w.src, w.S, nPage, env);
        }
      case Finish(k) => assert (w.bs[..k] + w.bs[k + 1..])[if k < i then i - 1 else i] == w.bs[i];
      case _ =>
    }
  }

  lemma StaysLocked(b: Backup, src: seq<Page>, S: nat, nPage: int, env: Env)
    requires Sized(b, src, S) && EnvOk(env) && (b.bDestLocked ==> |env.newDb| == b.D) && b.bDestLocked
    ensures Step(b, src, S, nPage, env).bDestLocked
  {
    hide IsPageSize, AllSized, CopyLoop, Complete;
  }
}
